/**
 The LCP client as it is written: methods that read and write one client's paths in the host's
 key-value store. Each is proved to be the step of `LcpClient` on what the store holds for the
 client, to change nothing when it fails, and to leave every other client alone.
 */
module LcpStore {
  import opened Types
  import opened Paths
  import opened Messages
  import opened MessageCodec
  import L = LcpClient

  /** Stored values, decoded. */
  datatype Value = StateValue(state: L.ClientState) | ConsensusValue(consensus: L.ConsensusState)
                 | ExpiryValue(expiry: U64) | Raw(bytes: Bytes)

  type Entries = map<Key, Value>

  /** The store maps rendered paths to values; `entries` says for which keys. */
  class Store {
    var kv: map<string, Value>
    ghost var entries: Entries

    ghost predicate Valid()
      reads this
    {
      && (forall k :: k in entries ==> ValidKey(k) && Render(k) in kv && kv[Render(k)] == entries[k])
      && (forall k :: ValidKey(k) && Render(k) in kv ==> k in entries)
    }

    constructor ()
      ensures Valid() && kv == map[] && entries == map[]
    {
      kv, entries := map[], map[];
    }

    method Get(key: Key) returns (v: Option<Value>)
      requires Valid() && ValidKey(key)
      ensures v == if key in entries then Some(entries[key]) else None
    {
      var path := Render(key);
      v := if path in kv then Some(kv[path]) else None;
    }

    /** Writing one key changes no other: paths never collide. */
    method Set(key: Key, value: Value)
      requires Valid() && ValidKey(key)
      modifies this
      ensures Valid() && entries == old(entries)[key := value]
    {
      forall k | ValidKey(k) && Render(k) == Render(key) ensures k == key { PathsNeverCollide(k, key); }
      kv := kv[Render(key) := value];
      entries := entries[key := value];
    }
  }

  ghost function StateAt(e: Entries, id: ClientId): Option<Value> {
    if ClientStateKey(id) in e then Some(e[ClientStateKey(id)]) else None
  }

  /** The entries hold exactly the view for the client. */
  ghost predicate Holds(e: Entries, id: ClientId, v: L.View) {
    && StateAt(e, id) == (if v.state.Some? then Some(StateValue(v.state.value)) else None)
    && (forall h :: h in v.consensus <==> ConsensusKey(id, h) in e)
    && (forall h :: h in v.consensus ==> e[ConsensusKey(id, h)] == ConsensusValue(v.consensus[h]))
    && (forall a :: a in v.keys <==> EnclaveKey(id, a) in e)
    && (forall a :: a in v.keys ==> e[EnclaveKey(id, a)] == ExpiryValue(v.keys[a]))
  }

  predicate Concerns(k: Key, id: ClientId) { !k.ClientCounter? && k.id == id }

  /** Only entries of the client differ. */
  ghost predicate Confined(e: Entries, e': Entries, id: ClientId) {
    forall k :: !Concerns(k, id) ==> (k in e <==> k in e') && (k in e ==> e[k] == e'[k])
  }

  /** So what the store holds for any other client stays. */
  lemma OthersKept(e: Entries, e': Entries, id: ClientId, other: ClientId, v: L.View)
    requires Confined(e, e', id) && other != id && Holds(e, other, v)
    ensures Holds(e', other, v)
  {
  }

  lemma StateWritten(e: Entries, id: ClientId, v: L.View, s: L.ClientState)
    requires Holds(e, id, v)
    ensures Holds(e[ClientStateKey(id) := StateValue(s)], id, v.(state := Some(s)))
  {
  }

  lemma ConsensusWritten(e: Entries, id: ClientId, v: L.View, h: Height, c: L.ConsensusState)
    requires Holds(e, id, v)
    ensures Holds(e[ConsensusKey(id, h) := ConsensusValue(c)], id, v.(consensus := v.consensus[h := c]))
  {
  }

  lemma KeyWritten(e: Entries, id: ClientId, v: L.View, a: Address, expiry: U64)
    requires Holds(e, id, v)
    ensures Holds(e[EnclaveKey(id, a) := ExpiryValue(expiry)], id, v.(keys := v.keys[a := expiry]))
  {
  }

  // ---------------------------------------------------------------------------------------
  // Reading

  method GetClientState(ctx: Store, id: ClientId, ghost v: L.View) returns (s: Option<L.ClientState>)
    requires ctx.Valid() && ValidClientId(id) && Holds(ctx.entries, id, v)
    ensures s == v.state
  {
    var r := ctx.Get(ClientStateKey(id));
    s := if r.Some? && r.value.StateValue? then Some(r.value.state) else None;
  }

  method GetConsensusState(ctx: Store, id: ClientId, h: Height, ghost v: L.View) returns (c: Option<L.ConsensusState>)
    requires ctx.Valid() && ValidClientId(id) && Holds(ctx.entries, id, v)
    ensures c == if h in v.consensus then Some(v.consensus[h]) else None
  {
    var r := ctx.Get(ConsensusKey(id, h));
    c := if r.Some? && r.value.ConsensusValue? then Some(r.value.consensus) else None;
  }

  /** The stored id at a height is the given one. */
  method MatchesStored(ctx: Store, id: ClientId, h: Height, stateId: StateId, ghost v: L.View) returns (ok: bool)
    requires ctx.Valid() && ValidClientId(id) && Holds(ctx.entries, id, v)
    ensures ok == L.StoredId(v, h, stateId)
  {
    var c := GetConsensusState(ctx, id, h, v);
    ok := c.Some? && c.value.stateId == stateId;
  }

  method GetExpiry(ctx: Store, id: ClientId, a: Address, ghost v: L.View) returns (e: Option<U64>)
    requires ctx.Valid() && ValidClientId(id) && Holds(ctx.entries, id, v)
    ensures e == if a in v.keys then Some(v.keys[a]) else None
  {
    var r := ctx.Get(EnclaveKey(id, a));
    e := if r.Some? && r.value.ExpiryValue? then Some(r.value.expiry) else None;
  }

  /** `contains_enclave_key`: present, expired or not. */
  method ContainsEnclaveKey(ctx: Store, id: ClientId, a: Address, ghost v: L.View) returns (ok: bool)
    requires ctx.Valid() && ValidClientId(id) && Holds(ctx.entries, id, v)
    ensures ok == (a in v.keys)
  {
    var e := GetExpiry(ctx, id, a, v);
    ok := e.Some?;
  }

  method IsActiveEnclaveKey(ctx: Store, id: ClientId, now: Time, a: Address, ghost v: L.View) returns (ok: bool)
    requires ctx.Valid() && ValidClientId(id) && Holds(ctx.entries, id, v)
    ensures ok == L.ActiveKey(v, now, a)
  {
    var e := GetExpiry(ctx, id, a, v);
    ok := e.Some? && Secs(now) < e.value;
  }

  /** `verify_membership`, on a decoded commitment proof. */
  method VerifyMembership<K>(ctx: Store, c: Crypto<K>, id: ClientId, now: Time,
                             prefix: Bytes, path: Bytes, value: Bytes, height: Height,
                             message: Bytes, signer: Address, signature: Bytes, ghost v: L.View)
    returns (ok: bool)
    requires ctx.Valid() && ValidClientId(id) && Holds(ctx.entries, id, v)
    ensures ok == L.MembershipAccepted(c, v, now, prefix, path, value, height, message, signer, signature)
  {
    var decoded := FromBytes(message);
    if decoded.None? || !decoded.value.Membership? { return false; }
    var m := decoded.value.membership;
    if m.prefix != prefix || m.path != path || m.height != height || m.value != Some(c.keccak256(value)) {
      return false;
    }
    var matches := MatchesStored(ctx, id, height, m.stateId, v);
    if !matches || c.recover(message, signature) != Some(signer) { return false; }
    ok := IsActiveEnclaveKey(ctx, id, now, signer, v);
  }

  // ---------------------------------------------------------------------------------------
  // Writing

  method Initialise(ctx: Store, id: ClientId, mrEnclave: Bytes, keyExpiration: Duration,
                    latestHeight: Height, frozen: bool, stateId: StateId, timestamp: Time, ghost v: L.View)
    returns (ok: bool)
    requires ctx.Valid() && ValidClientId(id) && Holds(ctx.entries, id, v)
    modifies ctx
    ensures ctx.Valid() && Confined(old(ctx.entries), ctx.entries, id)
    ensures var r := L.Initialise(v, mrEnclave, keyExpiration, latestHeight, frozen, stateId, timestamp);
            && ok == r.Some?
            && (ok ==> Holds(ctx.entries, id, r.value))
            && (!ok ==> ctx.kv == old(ctx.kv) && ctx.entries == old(ctx.entries))
  {
    if keyExpiration == 0 || !latestHeight.IsZero() || |mrEnclave| != 32 { return false; }
    if stateId != Zeros(32) || timestamp != 0 { return false; }
    var s := L.ClientState(mrEnclave, keyExpiration / NANOS_PER_SEC, latestHeight, frozen);
    var e := L.ConsensusState(stateId, Secs(timestamp));
    StoreStates(ctx, id, s, latestHeight, e, v);
    ok := true;
  }

  method StoreStates(ctx: Store, id: ClientId, s: L.ClientState, h: Height, e: L.ConsensusState, ghost v: L.View)
    requires ctx.Valid() && ValidClientId(id) && Holds(ctx.entries, id, v)
    modifies ctx
    ensures ctx.Valid() && Confined(old(ctx.entries), ctx.entries, id)
    ensures Holds(ctx.entries, id, v.(state := Some(s), consensus := v.consensus[h := e]))
  {
    StateWritten(ctx.entries, id, v, s);
    ctx.Set(ClientStateKey(id), StateValue(s));
    ConsensusWritten(ctx.entries, id, v.(state := Some(s)), h, e);
    ctx.Set(ConsensusKey(id, h), ConsensusValue(e));
  }

  /** The checks of `update_state`. */
  method CheckUpdate<K>(ctx: Store, c: Crypto<K>, id: ClientId, now: Time, s: L.ClientState, m: Messages.UpdateState,
                        signer: Address, signature: Bytes, ghost v: L.View)
    returns (ok: bool)
    requires ctx.Valid() && ValidClientId(id) && Holds(ctx.entries, id, v) && v.state == Some(s)
    ensures ok == L.UpdateAccepted(c, v, now, m, signer, signature)
  {
    if !ValidateUpdate(m) || s.frozen { return false; }
    if s.latestHeight.IsZero() {
      if m.emittedStates == [] { return false; }
    } else {
      if m.prevHeight.None? || m.prevStateId.None? { return false; }
      var matches := MatchesStored(ctx, id, m.prevHeight.value, m.prevStateId.value, v);
      if !matches { return false; }
    }
    var known := ContainsEnclaveKey(ctx, id, signer, v);
    ok := known && c.recover(ToBytes(Update(m)), signature) == Some(signer) && ContextValid(m.context, now);
  }

  /** The first `n` previous states are stored. */
  predicate StoredUpTo(v: L.View, prevStates: seq<PrevState>, n: nat)
    requires n <= |prevStates|
  {
    n == 0 || (StoredUpTo(v, prevStates, n - 1) && L.StoredId(v, prevStates[n - 1].height, prevStates[n - 1].stateId))
  }

  lemma {:induction false} StoredUpToAll(v: L.View, prevStates: seq<PrevState>, n: nat)
    requires n <= |prevStates|
    ensures StoredUpTo(v, prevStates, n)
       <==> forall j :: 0 <= j < n ==> L.StoredId(v, prevStates[j].height, prevStates[j].stateId)
  {
    if n > 0 { StoredUpToAll(v, prevStates, n - 1); }
  }

  lemma {:induction false} NotStoredLater(v: L.View, prevStates: seq<PrevState>, i: nat, n: nat)
    requires i <= n <= |prevStates| && !StoredUpTo(v, prevStates, i)
    ensures !StoredUpTo(v, prevStates, n)
  {
    if i < n { NotStoredLater(v, prevStates, i, n - 1); }
  }

  /** The loop of `submit_misbehaviour` over the previous states. */
  method AllStored(ctx: Store, id: ClientId, prevStates: seq<PrevState>, ghost v: L.View) returns (ok: bool)
    requires ctx.Valid() && ValidClientId(id) && Holds(ctx.entries, id, v)
    ensures ok == StoredUpTo(v, prevStates, |prevStates|)
  {
    var i := 0;
    while i < |prevStates|
      invariant 0 <= i <= |prevStates| && StoredUpTo(v, prevStates, i)
    {
      var matches := MatchesStored(ctx, id, prevStates[i].height, prevStates[i].stateId, v);
      if !matches {
        NotStoredLater(v, prevStates, i + 1, |prevStates|);
        return false;
      }
      i := i + 1;
    }
    ok := true;
  }

  method CheckMisbehaviour<K>(ctx: Store, c: Crypto<K>, id: ClientId, now: Time, s: L.ClientState, m: Misbehaviour,
                              signer: Address, signature: Bytes, ghost v: L.View)
    returns (ok: bool)
    requires ctx.Valid() && ValidClientId(id) && Holds(ctx.entries, id, v) && v.state == Some(s)
    ensures ok == L.MisbehaviourAccepted(c, v, now, m, signer, signature)
  {
    if !ValidateMisbehaviour(m) || s.frozen { return false; }
    StoredUpToAll(v, m.prevStates, |m.prevStates|);
    var stored := AllStored(ctx, id, m.prevStates, v);
    if !stored { return false; }
    var known := ContainsEnclaveKey(ctx, id, signer, v);
    ok := known && ContextValid(m.context, now) && c.recover(ToBytes(Misbehave(m)), signature) == Some(signer);
  }

  method UpdateState<K>(ctx: Store, c: Crypto<K>, id: ClientId, now: Time, s: L.ClientState, m: Messages.UpdateState,
                        signer: Address, signature: Bytes, ghost v: L.View)
    returns (ok: bool)
    requires ctx.Valid() && ValidClientId(id) && Holds(ctx.entries, id, v) && v.state == Some(s)
    modifies ctx
    ensures ctx.Valid() && Confined(old(ctx.entries), ctx.entries, id)
    ensures ok == L.UpdateAccepted(c, v, now, m, signer, signature)
    ensures ok ==> Holds(ctx.entries, id, L.AfterUpdate(v, m))
    ensures !ok ==> ctx.kv == old(ctx.kv) && ctx.entries == old(ctx.entries)
  {
    ok := CheckUpdate(ctx, c, id, now, s, m, signer, signature, v);
    if ok {
      StoreStates(ctx, id, L.WithHeader(s, m), m.postHeight, L.ConsensusState(m.postStateId, Secs(m.timestamp)), v);
    }
  }

  method RegisterEnclaveKey(ctx: Store, id: ClientId, now: Time, s: L.ClientState, q: L.Quote, ghost v: L.View)
    returns (ok: bool)
    requires ctx.Valid() && ValidClientId(id) && Holds(ctx.entries, id, v) && v.state == Some(s)
    modifies ctx
    ensures ctx.Valid() && Confined(old(ctx.entries), ctx.entries, id)
    ensures ok == L.KeyExpiry(s, now, q).Some?
    ensures ok ==> Holds(ctx.entries, id, v.(keys := v.keys[q.address := L.KeyExpiry(s, now, q).value]))
    ensures !ok ==> ctx.kv == old(ctx.kv) && ctx.entries == old(ctx.entries)
  {
    L.KeyExpiryExact(s, now, q);
    var end := AddTime(q.attestationTime, FromSecs(s.keyExpiration));
    if end.None? || now > end.value { return false; }
    if q.mrEnclave != s.mrEnclave { return false; }
    KeyWritten(ctx.entries, id, v, q.address, Secs(end.value));
    ctx.Set(EnclaveKey(id, q.address), ExpiryValue(Secs(end.value)));
    ok := true;
  }

  method SubmitMisbehaviour<K>(ctx: Store, c: Crypto<K>, id: ClientId, now: Time, s: L.ClientState, m: Misbehaviour,
                               signer: Address, signature: Bytes, ghost v: L.View)
    returns (ok: bool)
    requires ctx.Valid() && ValidClientId(id) && Holds(ctx.entries, id, v) && v.state == Some(s)
    modifies ctx
    ensures ctx.Valid() && Confined(old(ctx.entries), ctx.entries, id)
    ensures ok == L.MisbehaviourAccepted(c, v, now, m, signer, signature)
    ensures ok ==> Holds(ctx.entries, id, v.(state := Some(s.(frozen := true))))
    ensures !ok ==> ctx.kv == old(ctx.kv) && ctx.entries == old(ctx.entries)
  {
    ok := CheckMisbehaviour(ctx, c, id, now, s, m, signer, signature, v);
    if ok {
      StateWritten(ctx.entries, id, v, s.(frozen := true));
      ctx.Set(ClientStateKey(id), StateValue(s.(frozen := true)));
    }
  }

  /** `update_client`: exactly the client's step; nothing changes when it fails, and no other client's
      entry changes ever. */
  method UpdateClient<K>(ctx: Store, c: Crypto<K>, id: ClientId, now: Time, msg: L.ClientMessage, ghost v: L.View)
    returns (ok: bool)
    requires ctx.Valid() && ValidClientId(id) && Holds(ctx.entries, id, v)
    modifies ctx
    ensures ctx.Valid() && Confined(old(ctx.entries), ctx.entries, id)
    ensures ok == L.Step(c, v, now, msg).Some?
    ensures ok ==> Holds(ctx.entries, id, L.Step(c, v, now, msg).value)
    ensures !ok ==> ctx.kv == old(ctx.kv) && ctx.entries == old(ctx.entries)
  {
    ghost var next := L.Step(c, v, now, msg);
    ok := false;
    var state := GetClientState(ctx, id, v);
    if state.None? { return; }
    match msg
    case RegisterEnclaveKey(None) =>
    case RegisterEnclaveKey(Some(q)) =>
      ok := RegisterEnclaveKey(ctx, id, now, state.value, q, v);
      assert ok ==> next == Some(v.(keys := v.keys[q.address := L.KeyExpiry(state.value, now, q).value]));
    case UpdateClient(Update(m), signer, signature) =>
      ok := UpdateState(ctx, c, id, now, state.value, m, signer, signature, v);
      assert ok ==> next == Some(L.AfterUpdate(v, m));
    case UpdateClient(Misbehave(m), signer, signature) =>
      ok := SubmitMisbehaviour(ctx, c, id, now, state.value, m, signer, signature, v);
      assert ok ==> next == Some(v.(state := Some(state.value.(frozen := true))));
    case UpdateClient(Membership(_), _, _) =>
  }
}
