/**
 End to end: the enclave's light client advances, its messages are aggregated and relayed in any
 order and at any time, and the LCP client replays them. The ids the LCP client holds stay the ids
 the enclave computes.
 */
module Relay {
  import opened Types
  import opened ProtoAny
  import opened Messages
  import opened MessageCodec
  import E = TendermintElc
  import L = LcpClient

  /** Both sides and the messages signed so far; a signed message is never lost. */
  datatype World = World(elc: E.Elc, lcp: L.View, updates: seq<UpdateState>, evidence: seq<Misbehaviour>)

  datatype Event =
    | Advance(now: Time, header: E.Header, includeState: bool)
    | Freeze(now: Time, misbehaviour: E.Evidence)
    | Combine(parts: seq<nat>)
    | Register(now: Time, quote: L.Quote)
    | DeliverUpdate(now: Time, index: nat, signer: Address, signature: Bytes)
    | DeliverEvidence(now: Time, index: nat, signer: Address, signature: Bytes)

  /** The messages as the enclave decodes them before aggregating. */
  ghost function Decoded(updates: seq<UpdateState>, parts: seq<nat>): (ms: seq<UpdateState>)
    requires forall i :: 0 <= i < |parts| ==> parts[i] < |updates|
    ensures |ms| == |parts| && forall i :: 0 <= i < |ms| ==> ms[i] == NormalizeUpdate(updates[parts[i]])
  {
    seq(|parts|, i requires 0 <= i < |parts| => NormalizeUpdate(updates[parts[i]]))
  }

  /** What the LCP client decodes from the signed bytes is the normalised message. */
  ghost function Deliver<Key>(c: Crypto<Key>, w: World, now: Time, m: ProxyMessage,
                              signer: Address, signature: Bytes): World
  {
    w.(lcp := L.Apply(c, w.lcp, L.Call(now, L.UpdateClient(Normalize(m), signer, signature))))
  }

  /** An event that is not possible changes nothing. */
  ghost function Next<Key>(env: E.Env, c: Crypto<Key>, w: World, e: Event): World {
    match e
    case Advance(now, header, includeState) =>
      (match E.Advance(env, w.elc, now, header, includeState)
       case None => w
       case Some((elc, m)) => w.(elc := elc, updates := w.updates + [m]))
    case Freeze(now, misbehaviour) =>
      (match E.Freeze(env, w.elc, now, misbehaviour)
       case None => w
       case Some((elc, m)) => w.(elc := elc, evidence := w.evidence + [m]))
    case Combine(parts) =>
      if forall i :: 0 <= i < |parts| ==> parts[i] < |w.updates|
      then match AggregateAll(Decoded(w.updates, parts)) case None => w case Some(m) => w.(updates := w.updates + [m])
      else w
    case Register(now, quote) => w.(lcp := L.Apply(c, w.lcp, L.Call(now, L.RegisterEnclaveKey(Some(quote)))))
    case DeliverUpdate(now, i, signer, sig) =>
      if i < |w.updates| then Deliver(c, w, now, Update(w.updates[i]), signer, sig) else w
    case DeliverEvidence(now, i, signer, sig) =>
      if i < |w.evidence| then Deliver(c, w, now, Misbehave(w.evidence[i]), signer, sig) else w
  }

  // ---------------------------------------------------------------------------------------
  // The invariant

  ghost predicate Installed(env: E.Env, elc: E.Elc, h: Height, id: StateId) {
    elc.client.Some? && !h.IsZero() && h in elc.consensus && id == E.SidAt(env, elc, h)
  }

  /** Both ends of an update message name installed heights and their ids. */
  ghost predicate FaithfulUpdate(env: E.Env, elc: E.Elc, m: UpdateState) {
    && Installed(env, elc, m.postHeight, m.postStateId)
    && m.prevHeight.Some? && Installed(env, elc, m.prevHeight.value, IdOrZero(m.prevStateId))
  }

  ghost predicate FaithfulEvidence(env: E.Env, elc: E.Elc, m: Misbehaviour) {
    && m.prevStates != [] && m.context == Empty
    && forall i :: 0 <= i < |m.prevStates| ==> Installed(env, elc, m.prevStates[i].height, m.prevStates[i].stateId)
  }

  ghost predicate FaithfulView(env: E.Env, elc: E.Elc, v: L.View) {
    forall h :: h in v.consensus && !h.IsZero() ==> Installed(env, elc, h, v.consensus[h].stateId)
  }

  ghost predicate Faithful(env: E.Env, w: World) {
    && w.elc.client.Some? && w.lcp.state.Some?
    && (forall i :: 0 <= i < |w.updates| ==> FaithfulUpdate(env, w.elc, w.updates[i]))
    && (forall i :: 0 <= i < |w.evidence| ==> FaithfulEvidence(env, w.elc, w.evidence[i]))
    && FaithfulView(env, w.elc, w.lcp)
  }

  lemma InstalledStays(env: E.Env, a: E.Elc, b: E.Elc, h: Height, id: StateId)
    requires Installed(env, a, h, id) && E.Extends(a, b)
    ensures Installed(env, b, h, id)
  {
    E.SidStable(env, a, b, h);
  }

  lemma FaithfulStays(env: E.Env, w: World, elc: E.Elc)
    requires Faithful(env, w) && E.Extends(w.elc, elc)
    ensures Faithful(env, w.(elc := elc))
  {
    forall h, id | Installed(env, w.elc, h, id) ensures Installed(env, elc, h, id) {
      InstalledStays(env, w.elc, elc, h, id);
    }
  }

  lemma AdvanceFaithful(env: E.Env, elc: E.Elc, now: Time, header: E.Header, includeState: bool)
    requires E.IbcContract(env) && E.Advance(env, elc, now, header, includeState).Some?
    ensures var (elc', m) := E.Advance(env, elc, now, header, includeState).value;
            E.Extends(elc, elc') && FaithfulUpdate(env, elc', m)
  {
    E.UpdateExtends(env, elc, now, header, includeState);
    E.UpdateIds(env, elc, now, header, includeState);
  }

  lemma FreezeFaithful(env: E.Env, elc: E.Elc, now: Time, e: E.Evidence)
    requires E.IbcContract(env) && E.Freeze(env, elc, now, e).Some?
    ensures var (elc', m) := E.Freeze(env, elc, now, e).value;
            E.Extends(elc, elc') && FaithfulEvidence(env, elc', m)
  {
    var (elc', m) := E.Freeze(env, elc, now, e).value;
    E.MisbehaviourExtends(env, elc, now, e);
    E.PrevStatesIds(env, elc, [e.trusted1, e.trusted2]);
    forall i | 0 <= i < |m.prevStates| ensures Installed(env, elc', m.prevStates[i].height, m.prevStates[i].stateId) {
      InstalledStays(env, elc, elc', m.prevStates[i].height, m.prevStates[i].stateId);
    }
  }

  lemma NormalFaithful(env: E.Env, elc: E.Elc, m: UpdateState)
    requires FaithfulUpdate(env, elc, m)
    ensures FaithfulUpdate(env, elc, NormalizeUpdate(m))
  {
  }

  lemma AggregateFaithful(env: E.Env, elc: E.Elc, ms: seq<UpdateState>)
    requires forall i :: 0 <= i < |ms| ==> FaithfulUpdate(env, elc, ms[i])
    requires AggregateAll(ms).Some?
    ensures FaithfulUpdate(env, elc, AggregateAll(ms).value)
  {
    AggregateEnds(ms);
    assert FaithfulUpdate(env, elc, ms[0]) && FaithfulUpdate(env, elc, ms[|ms| - 1]);
  }

  lemma DeliverFaithful<Key>(env: E.Env, c: Crypto<Key>, w: World, now: Time, m: ProxyMessage,
                             signer: Address, sig: Bytes)
    requires w.lcp.state.Some? && FaithfulView(env, w.elc, w.lcp)
    requires (m.Update? ==> FaithfulUpdate(env, w.elc, m.update))
    ensures Deliver(c, w, now, m, signer, sig).lcp.state.Some?
    ensures FaithfulView(env, w.elc, Deliver(c, w, now, m, signer, sig).lcp)
  {
    if m.Update? { NormalFaithful(env, w.elc, m.update); }
  }

  lemma CombineFaithful(env: E.Env, w: World, parts: seq<nat>)
    requires Faithful(env, w) && forall i :: 0 <= i < |parts| ==> parts[i] < |w.updates|
    requires AggregateAll(Decoded(w.updates, parts)).Some?
    ensures FaithfulUpdate(env, w.elc, AggregateAll(Decoded(w.updates, parts)).value)
  {
    var ms := Decoded(w.updates, parts);
    forall i | 0 <= i < |ms| ensures FaithfulUpdate(env, w.elc, ms[i]) {
      NormalFaithful(env, w.elc, w.updates[parts[i]]);
    }
    AggregateFaithful(env, w.elc, ms);
  }

  lemma FaithfulNext<Key>(env: E.Env, c: Crypto<Key>, w: World, e: Event)
    requires E.IbcContract(env) && Faithful(env, w)
    ensures Faithful(env, Next(env, c, w, e))
  {
    match e
    case Advance(now, header, includeState) =>
      if E.Advance(env, w.elc, now, header, includeState).Some? {
        AdvanceFaithful(env, w.elc, now, header, includeState);
        FaithfulStays(env, w, E.Advance(env, w.elc, now, header, includeState).value.0);
      }
    case Freeze(now, m) =>
      if E.Freeze(env, w.elc, now, m).Some? {
        FreezeFaithful(env, w.elc, now, m);
        FaithfulStays(env, w, E.Freeze(env, w.elc, now, m).value.0);
      }
    case Combine(parts) =>
      if forall i :: 0 <= i < |parts| ==> parts[i] < |w.updates| {
        if AggregateAll(Decoded(w.updates, parts)).Some? { CombineFaithful(env, w, parts); }
      }
    case Register(now, quote) =>
    case DeliverUpdate(now, i, signer, sig) =>
      if i < |w.updates| { DeliverFaithful(env, c, w, now, Update(w.updates[i]), signer, sig); }
    case DeliverEvidence(now, i, signer, sig) =>
      if i < |w.evidence| { DeliverFaithful(env, c, w, now, Misbehave(w.evidence[i]), signer, sig); }
  }

  // ---------------------------------------------------------------------------------------
  // Whole runs

  ghost predicate Start(w: World) {
    w.elc.client.Some? && L.Initial(w.lcp) && w.updates == [] && w.evidence == []
  }

  ghost predicate Happens<Key>(env: E.Env, c: Crypto<Key>, ws: seq<World>, es: seq<Event>, i: nat)
    requires |ws| == |es| + 1 && i < |es|
  {
    ws[i + 1] == Next(env, c, ws[i], es[i])
  }

  ghost predicate Run<Key>(env: E.Env, c: Crypto<Key>, ws: seq<World>, es: seq<Event>) {
    && E.IbcContract(env) && |ws| == |es| + 1 && Start(ws[0])
    && (forall i :: 0 <= i < |es| ==> Happens(env, c, ws, es, i))
  }

  lemma {:induction false} RunIsFaithful<Key>(env: E.Env, c: Crypto<Key>, ws: seq<World>, es: seq<Event>, i: nat)
    requires Run(env, c, ws, es) && i < |ws|
    ensures Faithful(env, ws[i])
  {
    if i > 0 {
      RunIsFaithful(env, c, ws, es, i - 1);
      assert Happens(env, c, ws, es, i - 1);
      FaithfulNext(env, c, ws[i - 1], es[i - 1]);
    }
  }

  lemma NextExtends<Key>(env: E.Env, c: Crypto<Key>, w: World, e: Event)
    requires E.IbcContract(env)
    ensures E.Extends(w.elc, Next(env, c, w, e).elc)
  {
    match e
    case Advance(now, header, includeState) =>
      if E.Advance(env, w.elc, now, header, includeState).Some? {
        E.UpdateExtends(env, w.elc, now, header, includeState);
      }
    case Freeze(now, m) =>
      if E.Freeze(env, w.elc, now, m).Some? { E.MisbehaviourExtends(env, w.elc, now, m); }
    case _ =>
  }

  lemma {:induction false} RunExtends<Key>(env: E.Env, c: Crypto<Key>, ws: seq<World>, es: seq<Event>, i: nat, j: nat)
    requires Run(env, c, ws, es) && i <= j < |ws|
    ensures E.Extends(ws[i].elc, ws[j].elc)
  {
    if i < j {
      RunExtends(env, c, ws, es, i, j - 1);
      assert Happens(env, c, ws, es, j - 1);
      NextExtends(env, c, ws[j - 1], es[j - 1]);
    }
  }

  /** The id the LCP client holds for a relayed height at any point of a run is the id the enclave
      computes for that height at that point and at every later one. */
  lemma StateIdsAgree<Key>(env: E.Env, c: Crypto<Key>, ws: seq<World>, es: seq<Event>, i: nat, j: nat, h: Height)
    requires Run(env, c, ws, es) && i <= j < |ws| && h in ws[i].lcp.consensus && !h.IsZero()
    ensures ws[j].elc.client.Some? && h in ws[j].elc.consensus
    ensures ws[i].lcp.consensus[h].stateId == E.SidAt(env, ws[j].elc, h)
  {
    RunIsFaithful(env, c, ws, es, i);
    RunExtends(env, c, ws, es, i, j);
    InstalledStays(env, ws[i].elc, ws[j].elc, h, ws[i].lcp.consensus[h].stateId);
  }

  /** An id the enclave computes at some point is the one the LCP client stores at every later point
      at which the height has been relayed. */
  lemma ComputedIdIsStored<Key>(env: E.Env, c: Crypto<Key>, ws: seq<World>, es: seq<Event>, i: nat, j: nat, h: Height)
    requires Run(env, c, ws, es) && i <= j < |ws| && h in ws[j].lcp.consensus && !h.IsZero()
    requires ws[i].elc.client.Some? && h in ws[i].elc.consensus
    ensures L.StoredId(ws[j].lcp, h, E.SidAt(env, ws[i].elc, h))
  {
    StateIdsAgree(env, c, ws, es, j, j, h);
    RunExtends(env, c, ws, es, i, j);
    E.SidStable(env, ws[i].elc, ws[j].elc, h);
  }

  /** So an enclave update from a relayed trusted height, whenever it is delivered and whatever came
      between, names the id that is stored for it. */
  lemma TrustedUpdateMatches<Key>(env: E.Env, c: Crypto<Key>, ws: seq<World>, es: seq<Event>, i: nat, j: nat,
                                  now: Time, header: E.Header, includeState: bool)
    requires Run(env, c, ws, es) && i <= j < |ws| && E.Advance(env, ws[i].elc, now, header, includeState).Some?
    requires header.trustedHeight in ws[j].lcp.consensus
    ensures var m := E.Advance(env, ws[i].elc, now, header, includeState).value.1;
            && m.prevHeight == Some(header.trustedHeight) && m.prevStateId.Some?
            && L.StoredId(ws[j].lcp, header.trustedHeight, m.prevStateId.value)
  {
    ComputedIdIsStored(env, c, ws, es, i, j, header.trustedHeight);
  }

  /** An update message signed earlier in the run, at whatever point it is delivered, is accepted
      exactly if its start was relayed (the very first one must emit a state instead), the client is
      not frozen, a registered key signed it, its context is valid now, and the id it starts from is
      not the all-zero one. */
  lemma UpdateAcceptedExactly<Key>(env: E.Env, c: Crypto<Key>, ws: seq<World>, es: seq<Event>, i: nat, k: nat,
                                   now: Time, signer: Address, signature: Bytes)
    requires Run(env, c, ws, es) && i < |ws| && k < |ws[i].updates|
    ensures ws[i].lcp.state.Some?
    ensures var v, m := ws[i].lcp, NormalizeUpdate(ws[i].updates[k]);
            L.UpdateAccepted(c, v, now, m, signer, signature) <==>
              && IdOrZero(m.prevStateId) != Zeros(32)
              && (if v.state.value.latestHeight.IsZero() then m.emittedStates != []
                  else OrZero(m.prevHeight) in v.consensus)
              && !v.state.value.frozen
              && L.SignedBy(c, v, Update(m), signer, signature) && ContextValid(m.context, now)
  {
    RunIsFaithful(env, c, ws, es, i);
    var v, m := ws[i].lcp, NormalizeUpdate(ws[i].updates[k]);
    assert FaithfulUpdate(env, ws[i].elc, ws[i].updates[k]);
    var h := OrZero(m.prevHeight);
    assert m.prevHeight == Some(h) && !h.IsZero();
    if h in v.consensus { assert Installed(env, ws[i].elc, h, v.consensus[h].stateId); }
  }

  /** Evidence signed earlier in the run is accepted exactly if the states it names were relayed, the
      client is not frozen yet, and a registered key signed it. */
  lemma EvidenceAcceptedExactly<Key>(env: E.Env, c: Crypto<Key>, ws: seq<World>, es: seq<Event>, i: nat, k: nat,
                                     now: Time, signer: Address, signature: Bytes)
    requires Run(env, c, ws, es) && i < |ws| && k < |ws[i].evidence|
    ensures ws[i].lcp.state.Some?
    ensures var v, m := ws[i].lcp, ws[i].evidence[k];
            L.MisbehaviourAccepted(c, v, now, m, signer, signature) <==>
              && (forall j :: 0 <= j < |m.prevStates| ==> m.prevStates[j].height in v.consensus)
              && !v.state.value.frozen && L.SignedBy(c, v, Misbehave(m), signer, signature)
  {
    RunIsFaithful(env, c, ws, es, i);
    var v, m := ws[i].lcp, ws[i].evidence[k];
    assert FaithfulEvidence(env, ws[i].elc, m);
    forall j | 0 <= j < |m.prevStates| && m.prevStates[j].height in v.consensus
      ensures L.StoredId(v, m.prevStates[j].height, m.prevStates[j].stateId)
    {
      assert Installed(env, ws[i].elc, m.prevStates[j].height, m.prevStates[j].stateId);
    }
  }

  // ---------------------------------------------------------------------------------------
  // From an event in the enclave to its acceptance

  lemma NextKeepsMessages<Key>(env: E.Env, c: Crypto<Key>, w: World, e: Event)
    ensures w.updates <= Next(env, c, w, e).updates && w.evidence <= Next(env, c, w, e).evidence
  {
  }

  lemma {:induction false} RunKeepsMessages<Key>(env: E.Env, c: Crypto<Key>, ws: seq<World>, es: seq<Event>,
                                                 i: nat, j: nat)
    requires Run(env, c, ws, es) && i <= j < |ws|
    ensures ws[i].updates <= ws[j].updates && ws[i].evidence <= ws[j].evidence
  {
    if i < j {
      RunKeepsMessages(env, c, ws, es, i, j - 1);
      assert Happens(env, c, ws, es, j - 1);
      NextKeepsMessages(env, c, ws[j - 1], es[j - 1]);
    }
  }

  /** The message of an enclave update is still there, unchanged, at every later point. */
  lemma AdvanceKept<Key>(env: E.Env, c: Crypto<Key>, ws: seq<World>, es: seq<Event>, i: nat, j: nat)
    requires Run(env, c, ws, es) && i < j < |ws| && es[i].Advance?
    requires E.Advance(env, ws[i].elc, es[i].now, es[i].header, es[i].includeState).Some?
    ensures |ws[i].updates| < |ws[j].updates|
    ensures ws[j].updates[|ws[i].updates|]
         == E.Advance(env, ws[i].elc, es[i].now, es[i].header, es[i].includeState).value.1
  {
    assert Happens(env, c, ws, es, i);
    RunKeepsMessages(env, c, ws, es, i + 1, j);
  }

  /** The enclave's data for the message's trusted state, at the time of the event and later. */
  lemma TrustedDataKept<Key>(env: E.Env, c: Crypto<Key>, ws: seq<World>, es: seq<Event>, i: nat, j: nat, h: Height)
    requires Run(env, c, ws, es) && i <= j < |ws| && ws[i].elc.client.Some? && h in ws[i].elc.consensus
    ensures ws[j].elc.client.Some? && ws[j].elc.client.value.params == ws[i].elc.client.value.params
    ensures h in ws[j].elc.consensus && ws[j].elc.consensus[h] == ws[i].elc.consensus[h]
  {
    RunExtends(env, c, ws, es, i, j);
  }

  /** When the message of an update with this header is acceptable now, from what both sides store. */
  ghost predicate Deliverable<Key>(env: E.Env, c: Crypto<Key>, w: World, now: Time, header: E.Header,
                                   includeState: bool, m: UpdateState, signer: Address, signature: Bytes)
    requires w.elc.client.Some? && header.trustedHeight in w.elc.consensus && w.lcp.state.Some?
  {
    var p, trusted := w.elc.client.value.params, w.elc.consensus[header.trustedHeight].timestamp;
    && E.SidAt(env, w.elc, header.trustedHeight) != Zeros(32)
    && (if w.lcp.state.value.latestHeight.IsZero() then includeState else header.trustedHeight in w.lcp.consensus)
    && !w.lcp.state.value.frozen
    && L.SignedBy(c, w.lcp, Update(m), signer, signature)
    && now < trusted + p.trustingPeriod <= MAX_UNIX_TIMESTAMP_NANOS
    && header.timestamp < now + p.clockDrift <= MAX_UNIX_TIMESTAMP_NANOS
  }

  lemma AdvanceFields<Key>(env: E.Env, c: Crypto<Key>, ws: seq<World>, es: seq<Event>, i: nat, j: nat, now: Time)
    requires Run(env, c, ws, es) && i < j < |ws| && es[i].Advance?
    requires E.Advance(env, ws[i].elc, es[i].now, es[i].header, es[i].includeState).Some?
    ensures |ws[i].updates| < |ws[j].updates|
    ensures var header, elc, m := es[i].header, ws[j].elc, ws[j].updates[|ws[i].updates|];
            && elc.client.Some? && header.trustedHeight in elc.consensus && header.height in elc.consensus
            && m.prevHeight == Some(header.trustedHeight)
            && m.prevStateId == Some(E.SidAt(env, elc, header.trustedHeight))
            && m.postHeight == header.height && m.postStateId == E.SidAt(env, elc, header.height)
            && m.timestamp == header.timestamp && (m.emittedStates != [] <==> es[i].includeState)
            && var p, trusted := elc.client.value.params, elc.consensus[header.trustedHeight].timestamp;
            (ContextValid(m.context, now) <==>
               && now < trusted + p.trustingPeriod <= MAX_UNIX_TIMESTAMP_NANOS
               && header.timestamp < now + p.clockDrift <= MAX_UNIX_TIMESTAMP_NANOS)
  {
    var header := es[i].header;
    AdvanceKept(env, c, ws, es, i, j);
    E.AdvanceMessage(env, ws[i].elc, es[i].now, header, es[i].includeState, now);
    TrustedDataKept(env, c, ws, es, i, j, header.trustedHeight);
    AdvanceIds(env, c, ws, es, i, j);
  }

  lemma AdvanceIds<Key>(env: E.Env, c: Crypto<Key>, ws: seq<World>, es: seq<Event>, i: nat, j: nat)
    requires Run(env, c, ws, es) && i < j < |ws| && es[i].Advance?
    requires E.Advance(env, ws[i].elc, es[i].now, es[i].header, es[i].includeState).Some?
    ensures var header, elc := es[i].header, ws[j].elc;
            var m := E.Advance(env, ws[i].elc, es[i].now, header, es[i].includeState).value.1;
            && elc.client.Some? && header.trustedHeight in elc.consensus && header.height in elc.consensus
            && m.prevHeight == Some(header.trustedHeight)
            && m.prevStateId == Some(E.SidAt(env, elc, header.trustedHeight))
            && m.postHeight == header.height && m.postStateId == E.SidAt(env, elc, header.height)
  {
    var header := es[i].header;
    assert Happens(env, c, ws, es, i);
    E.UpdateIds(env, ws[i].elc, es[i].now, header, es[i].includeState);
    RunExtends(env, c, ws, es, i + 1, j);
    E.SidStable(env, ws[i + 1].elc, ws[j].elc, header.trustedHeight);
    E.SidStable(env, ws[i + 1].elc, ws[j].elc, header.height);
  }

  /**
   An enclave update, from its header to its acceptance, whenever it is delivered: the LCP client accepts
   the message exactly under conditions on what both sides store and on the host time, and the entry it
   writes is the id the enclave computes for the header's height, stamped with the header's seconds.
   */
  lemma AdvanceDelivered<Key>(env: E.Env, c: Crypto<Key>, ws: seq<World>, es: seq<Event>, i: nat, j: nat,
                              now: Time, signer: Address, signature: Bytes)
    requires Run(env, c, ws, es) && i < j < |ws| && es[i].Advance?
    requires E.Advance(env, ws[i].elc, es[i].now, es[i].header, es[i].includeState).Some?
    ensures |ws[i].updates| < |ws[j].updates| && ws[j].lcp.state.Some? && ws[j].elc.client.Some?
    ensures es[i].header.trustedHeight in ws[j].elc.consensus && es[i].header.height in ws[j].elc.consensus
    ensures var header, v, m := es[i].header, ws[j].lcp, NormalizeUpdate(ws[j].updates[|ws[i].updates|]);
            var r := L.Step(c, v, now, L.UpdateClient(Update(m), signer, signature));
            && (r.Some? <==> Deliverable(env, c, ws[j], now, header, es[i].includeState, m, signer, signature))
            && (r.Some? ==>
                  var entry := L.ConsensusState(E.SidAt(env, ws[j].elc, header.height), Secs(header.timestamp));
                  && r.value.consensus == v.consensus[header.height := entry] && r.value.keys == v.keys
                  && r.value.state ==
                     Some(v.state.value.(latestHeight := MaxHeight(v.state.value.latestHeight, header.height))))
  {
    AdvanceFields(env, c, ws, es, i, j, now);
    UpdateAcceptedExactly(env, c, ws, es, j, |ws[i].updates|, now, signer, signature);
  }

  lemma FreezeKept<Key>(env: E.Env, c: Crypto<Key>, ws: seq<World>, es: seq<Event>, i: nat, j: nat)
    requires Run(env, c, ws, es) && i < j < |ws| && es[i].Freeze?
    requires E.Freeze(env, ws[i].elc, es[i].now, es[i].misbehaviour).Some?
    ensures |ws[i].evidence| < |ws[j].evidence|
    ensures ws[j].evidence[|ws[i].evidence|] == E.Freeze(env, ws[i].elc, es[i].now, es[i].misbehaviour).value.1
  {
    assert Happens(env, c, ws, es, i);
    RunKeepsMessages(env, c, ws, es, i + 1, j);
  }

  /** Evidence, from the enclave to its acceptance: the LCP client freezes exactly if both trusted heights
      were relayed, it is not frozen yet and a registered key signed the message. */
  lemma FreezeDelivered<Key>(env: E.Env, c: Crypto<Key>, ws: seq<World>, es: seq<Event>, i: nat, j: nat,
                             now: Time, signer: Address, signature: Bytes)
    requires Run(env, c, ws, es) && i < j < |ws| && es[i].Freeze?
    requires E.Freeze(env, ws[i].elc, es[i].now, es[i].misbehaviour).Some?
    ensures |ws[i].evidence| < |ws[j].evidence| && ws[j].lcp.state.Some?
    ensures var e, v, m := es[i].misbehaviour, ws[j].lcp, ws[j].evidence[|ws[i].evidence|];
            var r := L.Step(c, v, now, L.UpdateClient(Misbehave(m), signer, signature));
            && (r.Some? <==> && e.trusted1 in v.consensus && e.trusted2 in v.consensus && !v.state.value.frozen
                             && L.SignedBy(c, v, Misbehave(m), signer, signature))
            && (r.Some? ==> r.value == v.(state := Some(v.state.value.(frozen := true))))
  {
    FreezeKept(env, c, ws, es, i, j);
    E.FreezeExact(env, ws[i].elc, es[i].now, es[i].misbehaviour);
    EvidenceAcceptedExactly(env, c, ws, es, j, |ws[i].evidence|, now, signer, signature);
  }

  /** A membership message of the enclave, checked by the LCP client against whatever is asked: accepted
      exactly if prefix, path and height are the ones it was made for, the value has the same hash, which is
      not all zero, the height was relayed, and an unexpired key of the named signer signed it. */
  lemma MembershipAcceptedExactly<Key>(env: E.Env, c: Crypto<Key>, ws: seq<World>, es: seq<Event>, i: nat, j: nat,
                                       prefix: Bytes, path: Str, value: Bytes, height: Height, proof: Bytes,
                                       now: Time, prefix': Bytes, path': Bytes, value': Bytes, height': Height,
                                       signer: Address, signature: Bytes)
    requires Run(env, c, ws, es) && i <= j < |ws| && env.keccak256 == c.keccak256
    requires E.Attest(env, ws[i].elc, prefix, path, Some(value), height, proof).Some?
    requires Fits(Membership(E.Attest(env, ws[i].elc, prefix, path, Some(value), height, proof).value))
    ensures var m := Membership(E.Attest(env, ws[i].elc, prefix, path, Some(value), height, proof).value);
            L.MembershipAccepted(c, ws[j].lcp, now, prefix', path', value', height', ToBytes(m), signer, signature) <==>
              && prefix' == prefix && path' == path && height' == height
              && c.keccak256(value') == c.keccak256(value) && c.keccak256(value) != Zeros(32)
              && height in ws[j].lcp.consensus
              && c.recover(ToBytes(m), signature) == Some(signer) && L.ActiveKey(ws[j].lcp, now, signer)
  {
    E.AttestExact(env, ws[i].elc, prefix, path, Some(value), height, proof);
    var m := E.Attest(env, ws[i].elc, prefix, path, Some(value), height, proof).value;
    DecodeEncode(Membership(m));
    if height in ws[j].lcp.consensus { ComputedIdIsStored(env, c, ws, es, i, j, height); }
  }
}
