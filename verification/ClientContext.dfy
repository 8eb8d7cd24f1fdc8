/**
 The enclave's view of its transaction, as `ClientReader` and `ClientKeeper` use it through the caching
 store, and the `init_client` command. Every access that reaches the host is logged, so that a command
 is an update transaction of the host store.
 */
module ClientContext {
  import opened Types
  import opened ByteCodec
  import opened Paths
  import opened RocksDb
  import opened Serial

  const COUNTERS: int := 0x1_0000_0000_0000_0000

  const COUNTER_KEY: string := Render(ClientCounter)

  /** The stored counter: absent means zero, a value of another length aborts. */
  function CounterOf(v: Option<Bytes>): (n: Option<nat>) {
    match v
    case None => Some(0)
    case Some(b) => if |b| == 8 then Some(FromBE(b)) else None
  }

  /** Machine addition without overflow checks. */
  function NextCounter(n: nat): nat { (n + 1) % COUNTERS }

  lemma CounterRoundTrip(n: nat)
    requires n < COUNTERS
    ensures CounterOf(Some(ToBE(n, 8))) == Some(n)
  {
    Pow256Values();
    FromToBE(n, 8);
  }

  /** The counter is a number exactly if it is absent, then zero, or that number's eight big-endian bytes. */
  lemma CounterExact(v: Option<Bytes>, n: nat)
    requires n < COUNTERS
    ensures CounterOf(v) == Some(n) <==> (v == None && n == 0) || v == Some(ToBE(n, 8))
  {
    CounterRoundTrip(n);
    if v.Some? { ToFromBE(v.value); }
  }

  function TypeKey(clientType: string, n: nat): string { Render(ClientType(GenClientId(clientType, n))) }

  /** A path of the client. */
  ghost predicate PathOf(k: string, id: ClientId) {
    exists key: Key :: !key.ClientCounter? && key.id == id && k == Render(key)
  }

  function StateKey(id: ClientId): string { Render(ClientStateKey(id)) }

  function ConsensusPath(id: ClientId, h: Height): string { Render(ConsensusKey(id, h)) }

  /** A log that creates client number `n` of its type from the input: it found `n` in the counter, and it
      leaves the next number and the client's type, client state and consensus state, and nothing else. */
  ghost predicate Creates(log: seq<Op>, clientType: string, n: nat, input: Input) {
    var w, id := Writes(log), GenClientId(clientType, n);
    && ValidClientId(id) && input.height.Some?
    && |log| > 0 && log[0].Got? && log[0].k == COUNTER_KEY && CounterOf(log[0].v) == Some(n)
    && Leaves(w, COUNTER_KEY, ToBE(NextCounter(n), 8))
    && Leaves(w, TypeKey(clientType, n), input.typeBytes)
    && Leaves(w, StateKey(id), input.clientState)
    && Leaves(w, ConsensusPath(id, input.height.value), input.consensusState)
    && (forall k :: k in w ==> k == COUNTER_KEY || NewPath(k, id, input.height.value))
  }

  ghost predicate Leaves(w: Buffer, k: string, v: Bytes) { k in w && w[k] == Some(v) }

  /** One of the three paths of a new client. */
  predicate NewPath(k: string, id: ClientId, h: Height) {
    k == Render(ClientType(id)) || k == StateKey(id) || k == ConsensusPath(id, h)
  }

  lemma NewPathOf(k: string, id: ClientId, h: Height)
    requires NewPath(k, id, h)
    ensures PathOf(k, id)
  {
  }

  /** The data of a new client are stored, the counter is the next one, and nothing else has changed. */
  ghost predicate ClientStored(db: Db, db': Db, id: ClientId, input: Input, next: Bytes)
    requires input.height.Some?
  {
    && Lookup(db', Render(ClientType(id))) == Some(input.typeBytes)
    && Lookup(db', Render(ClientStateKey(id))) == Some(input.clientState)
    && Lookup(db', Render(ConsensusKey(id, input.height.value))) == Some(input.consensusState)
    && Lookup(db', COUNTER_KEY) == Some(next)
    && (forall k :: k != COUNTER_KEY && !NewPath(k, id, input.height.value) ==> Lookup(db', k) == Lookup(db, k))
  }

  lemma CreationStores(db: Db, log: seq<Op>, clientType: string, n: nat, input: Input)
    requires Creates(log, clientType, n, input)
    ensures ClientStored(db, Overlay(db, Writes(log)), GenClientId(clientType, n), input, ToBE(NextCounter(n), 8))
  {
  }

  lemma CounterIsNoPath(id: ClientId)
    ensures !PathOf(COUNTER_KEY, id)
  {
    assert COUNTER_KEY[0] == 'n';
  }

  function Sets(writes: seq<(string, Bytes)>): seq<Op> {
    if |writes| == 0 then []
    else Sets(writes[..|writes| - 1]) + [Wrote(writes[|writes| - 1].0, Some(writes[|writes| - 1].1))]
  }

  function SetAll(db: Db, writes: seq<(string, Bytes)>): Db {
    if |writes| == 0 then db else SetAll(db, writes[..|writes| - 1])[writes[|writes| - 1].0 := writes[|writes| - 1].1]
  }

  lemma LastSet(log: seq<Op>, writes: seq<(string, Bytes)>, k: string, v: Bytes)
    ensures Writes(log + Sets(writes + [(k, v)])) == Writes(log + Sets(writes))[k := Some(v)]
  {
    OneMoreSet(map[], writes, k, v);
    assert log + Sets(writes + [(k, v)]) == (log + Sets(writes)) + [Wrote(k, Some(v))];
    ReplayExtend(map[], log + Sets(writes), Wrote(k, Some(v)));
  }

  ghost predicate DistinctKeys(writes: seq<(string, Bytes)>) {
    forall i, j :: 0 <= i < j < |writes| ==> writes[i].0 != writes[j].0
  }

  lemma {:induction false} SetsValues(log: seq<Op>, writes: seq<(string, Bytes)>, i: nat)
    requires DistinctKeys(writes) && i < |writes|
    ensures Leaves(Writes(log + Sets(writes)), writes[i].0, writes[i].1)
  {
    var rest, w := writes[..|writes| - 1], writes[|writes| - 1];
    assert writes == rest + [w];
    LastSet(log, rest, w.0, w.1);
    if i < |rest| { SetsValues(log, rest, i); }
  }

  lemma {:induction false} SetsKeys(log: seq<Op>, writes: seq<(string, Bytes)>)
    requires Writes(log) == map[]
    ensures forall k :: k in Writes(log + Sets(writes)) ==> exists i :: 0 <= i < |writes| && writes[i].0 == k
  {
    if |writes| == 0 {
      assert log + Sets(writes) == log;
    } else {
      var rest, w := writes[..|writes| - 1], writes[|writes| - 1];
      assert writes == rest + [w];
      LastSet(log, rest, w.0, w.1);
      SetsKeys(log, rest);
      assert forall i :: 0 <= i < |rest| ==> rest[i] == writes[i];
    }
  }

  lemma ReadWritesNothing(k: string, v: Option<Bytes>)
    ensures Writes([Got(k, v)]) == map[]
  {
    assert [Got(k, v)][..0] == [];
  }

  // ---------------------------------------------------------------------------------------
  // The command as the accesses it makes

  /** The states of a new client; `height` is what the light client made of them, `None` if it refused them. */
  datatype Input = Input(typeBytes: Bytes, clientState: Bytes, consensusState: Bytes, height: Option<Height>)

  /** `gen_client_id` on the stored counter, if the light client accepted the states. */
  function NewClientId(clientType: string, v: Option<Bytes>, height: Option<Height>): (id: Option<ClientId>)
    ensures id.Some? ==> height.Some? && CounterOf(v).Some? && ValidClientId(id.value)
  {
    if height.None? || CounterOf(v).None? then None
    else
      var id := GenClientId(clientType, CounterOf(v).value);
      if ValidClientId(id) then Some(id) else None
  }

  /** What `init_client` stores for the new client. */
  function ClientWrites(client: ClientId, input: Input): (r: seq<(string, Bytes)>)
    requires input.height.Some?
    ensures |r| == 3 && forall i :: 0 <= i < |r| ==> r[i].0 != COUNTER_KEY && PathOf(r[i].0, client)
  {
    CounterIsNoPath(client);
    var t, s, c := ClientType(client), ClientStateKey(client), ConsensusKey(client, input.height.value);
    assert PathOf(Render(t), client) && PathOf(Render(s), client) && PathOf(Render(c), client);
    [(Render(t), input.typeBytes), (Render(s), input.clientState), (Render(c), input.consensusState)]
  }

  /** All writes of the command after it found `v` in the counter; `None` if it fails then. */
  function Script(clientType: string, input: Input, v: Option<Bytes>): (r: Option<seq<(string, Bytes)>>)
    ensures r.Some? ==> |r.value| == 4
  {
    match NewClientId(clientType, v, input.height)
    case None => None
    case Some(id) => Some(ClientWrites(id, input) + [(COUNTER_KEY, ToBE(NextCounter(CounterOf(v).value), 8))])
  }

  datatype Access = ReadKey(k: string) | WriteKey(k: string, v: Bytes)

  /** The command's next access, given what it did so far; `None` when it has finished or failed. */
  function NextAccess(clientType: string, input: Input, log: seq<Op>): Option<Access> {
    if |log| == 0 then (if input.height.Some? then Some(ReadKey(COUNTER_KEY)) else None)
    else
      match Script(clientType, input, log[0].v)
      case None => None
      case Some(ws) => if |log| - 1 < |ws| then Some(WriteKey(ws[|log| - 1].0, ws[|log| - 1].1)) else None
  }

  /** The command has succeeded. */
  predicate Finished(clientType: string, input: Input, log: seq<Op>) {
    |log| > 0 && Script(clientType, input, log[0].v).Some? && |log| == 5
  }

  /** The log starts with one operation and goes on with the first of the writes. */
  ghost predicate WritesSoFar(log: seq<Op>, ws: seq<(string, Bytes)>) {
    1 <= |log| <= |ws| + 1 && log == [log[0]] + Sets(ws[..|log| - 1])
  }

  lemma WriteMore(log: seq<Op>, ws: seq<(string, Bytes)>)
    requires WritesSoFar(log, ws) && |log| <= |ws|
    ensures WritesSoFar(log + [Wrote(ws[|log| - 1].0, Some(ws[|log| - 1].1))], ws)
  {
    var n := |log| - 1;
    assert ws[..n + 1][..n] == ws[..n];
    assert Sets(ws[..n + 1]) == Sets(ws[..n]) + [Wrote(ws[n].0, Some(ws[n].1))];
  }

  /** A log made of nothing but the command's accesses, in order. */
  ghost predicate Follows(clientType: string, input: Input, log: seq<Op>) {
    |log| == 0
    || (&& log[0].Got? && log[0].k == COUNTER_KEY
        && (|log| == 1
            || var script := Script(clientType, input, log[0].v); script.Some? && WritesSoFar(log, script.value)))
  }

  lemma FollowsRead(clientType: string, input: Input, log: seq<Op>, k: string, v: Option<Bytes>)
    requires Follows(clientType, input, log) && NextAccess(clientType, input, log) == Some(ReadKey(k))
    ensures Follows(clientType, input, log + [Got(k, v)])
  {
  }

  lemma FollowsWrite(clientType: string, input: Input, log: seq<Op>, k: string, v: Bytes)
    requires Follows(clientType, input, log) && NextAccess(clientType, input, log) == Some(WriteKey(k, v))
    ensures Follows(clientType, input, log + [Wrote(k, Some(v))])
  {
    var ws := Script(clientType, input, log[0].v).value;
    assert WritesSoFar(log, ws) by {
      if |log| == 1 { assert ws[..0] == []; }
    }
    WriteMore(log, ws);
  }

  lemma ScriptShape(clientType: string, input: Input, v: Option<Bytes>)
    requires Script(clientType, input, v).Some?
    ensures CounterOf(v).Some? && input.height.Some? && ValidClientId(GenClientId(clientType, CounterOf(v).value))
    ensures var ws, n := Script(clientType, input, v).value, CounterOf(v).value;
            var id := GenClientId(clientType, n);
            && ws == [(Render(ClientType(id)), input.typeBytes), (StateKey(id), input.clientState),
                      (ConsensusPath(id, input.height.value), input.consensusState),
                      (COUNTER_KEY, ToBE(NextCounter(n), 8))]
            && DistinctKeys(ws)
  {
    var n := CounterOf(v).value;
    var id := GenClientId(clientType, n);
    NewPathsDiffer(id, input.height.value);
    FourDistinct(Script(clientType, input, v).value);
  }

  lemma FourDistinct(w: seq<(string, Bytes)>)
    requires |w| == 4 && w[0].0 != w[1].0 && w[0].0 != w[2].0 && w[0].0 != w[3].0
    requires w[1].0 != w[2].0 && w[1].0 != w[3].0 && w[2].0 != w[3].0
    ensures DistinctKeys(w)
  {
  }

  lemma FourWrites(k: string, v: Option<Bytes>, w: seq<(string, Bytes)>)
    requires |w| == 4 && DistinctKeys(w)
    ensures var b := Writes([Got(k, v)] + Sets(w));
            && Leaves(b, w[0].0, w[0].1) && Leaves(b, w[1].0, w[1].1) && Leaves(b, w[2].0, w[2].1)
            && Leaves(b, w[3].0, w[3].1)
            && (forall j :: j in b ==> j == w[0].0 || j == w[1].0 || j == w[2].0 || j == w[3].0)
  {
    SetsValues([Got(k, v)], w, 0);
    SetsValues([Got(k, v)], w, 1);
    SetsValues([Got(k, v)], w, 2);
    SetsValues([Got(k, v)], w, 3);
    ReadWritesNothing(k, v);
    SetsKeys([Got(k, v)], w);
  }

  lemma NewPathsDiffer(id: ClientId, h: Height)
    requires ValidClientId(id)
    ensures var t, s, c := Render(ClientType(id)), StateKey(id), ConsensusPath(id, h);
            t != s && t != c && s != c && t != COUNTER_KEY && s != COUNTER_KEY && c != COUNTER_KEY
  {
    var t, s, c := ClientType(id), ClientStateKey(id), ConsensusKey(id, h);
    if Render(t) == Render(s) { PathsNeverCollide(t, s); }
    if Render(t) == Render(c) { PathsNeverCollide(t, c); }
    if Render(s) == Render(c) { PathsNeverCollide(s, c); }
    if Render(t) == COUNTER_KEY { PathsNeverCollide(t, ClientCounter); }
    if Render(s) == COUNTER_KEY { PathsNeverCollide(s, ClientCounter); }
    if Render(c) == COUNTER_KEY { PathsNeverCollide(c, ClientCounter); }
  }

  lemma ScriptCreates(clientType: string, input: Input, v: Option<Bytes>)
    requires Script(clientType, input, v).Some?
    ensures CounterOf(v).Some?
    ensures Creates([Got(COUNTER_KEY, v)] + Sets(Script(clientType, input, v).value), clientType,
                    CounterOf(v).value, input)
  {
    ScriptShape(clientType, input, v);
    FourWrites(COUNTER_KEY, v, Script(clientType, input, v).value);
  }

  /** A command that followed its program to the end has created a client under the number it found. */
  lemma FinishedCreates(clientType: string, input: Input, log: seq<Op>)
    requires Follows(clientType, input, log) && Finished(clientType, input, log)
    ensures CounterOf(log[0].v).Some? && Creates(log, clientType, CounterOf(log[0].v).value, input)
  {
    var ws := Script(clientType, input, log[0].v).value;
    assert ws[..4] == ws;
    ScriptCreates(clientType, input, log[0].v);
  }

  // ---------------------------------------------------------------------------------------
  // The command as it is written

  class EnclaveContext {
    var kv: Db            // what the transaction shows
    var cache: Buffer
    ghost var log: seq<Op>

    ghost predicate Coherent()
      reads this
    {
      forall k :: k in cache ==> cache[k] == Lookup(kv, k)
    }

    /** A read reaches the host only for a key not cached. */
    method Get(k: string) returns (v: Option<Bytes>)
      requires Coherent()
      modifies this`cache, this`log
      ensures Coherent() && v == Lookup(kv, k) && cache == old(cache)[k := v]
      ensures log == if k in old(cache) then old(log) else old(log) + [Got(k, v)]
    {
      if k in cache {
        v := cache[k];
      } else {
        v := Lookup(kv, k);
        cache := cache[k := v];
        log := log + [Got(k, v)];
      }
    }

    method Set(k: string, v: Bytes)
      requires Coherent()
      modifies this
      ensures Coherent() && kv == old(kv)[k := v] && cache == old(cache)[k := Some(v)]
      ensures log == old(log) + [Wrote(k, Some(v))]
    {
      kv := kv[k := v];
      cache := cache[k := Some(v)];
      log := log + [Wrote(k, Some(v))];
    }

    /** `client_counter`. */
    method ClientCounter() returns (n: Option<nat>)
      requires Coherent()
      modifies this`cache, this`log
      ensures Coherent() && cache == old(cache)[COUNTER_KEY := Lookup(kv, COUNTER_KEY)]
      ensures log == if COUNTER_KEY in old(cache) then old(log)
                     else old(log) + [Got(COUNTER_KEY, Lookup(kv, COUNTER_KEY))]
      ensures n == CounterOf(Lookup(kv, COUNTER_KEY))
    {
      var v := Get(COUNTER_KEY);
      n := CounterOf(v);
    }

    /** `increase_client_counter`; the caller has read the counter before. */
    method IncreaseClientCounter()
      requires Coherent() && COUNTER_KEY in cache && CounterOf(Lookup(kv, COUNTER_KEY)).Some?
      modifies this
      ensures var next := ToBE(NextCounter(CounterOf(Lookup(old(kv), COUNTER_KEY)).value), 8);
              && Coherent() && kv == old(kv)[COUNTER_KEY := next] && log == old(log) + [Wrote(COUNTER_KEY, Some(next))]
    {
      var n := ClientCounter();
      Set(COUNTER_KEY, ToBE(NextCounter(n.value), 8));
    }

    /** `init_client` in a new store: it makes exactly the accesses of its program, or fails and writes
        nothing. */
    method InitClient(clientType: string, input: Input) returns (id: Option<ClientId>)
      requires cache == map[]
      modifies this
      ensures id == NewClientId(clientType, Lookup(old(kv), COUNTER_KEY), input.height)
      ensures id.None? ==> kv == old(kv)
      ensures id.Some? ==>
                var v := Lookup(old(kv), COUNTER_KEY);
                && Script(clientType, input, v).Some?
                && log == old(log) + [Got(COUNTER_KEY, v)] + Sets(Script(clientType, input, v).value)
                && ClientStored(old(kv), kv, id.value, input, ToBE(NextCounter(CounterOf(v).value), 8))
    {
      if input.height.None? { return None; }
      ghost var v := Lookup(kv, COUNTER_KEY);
      var n := ClientCounter();
      if n.None? { return None; }
      id := Some(GenClientId(clientType, n.value));
      if !ValidClientId(id.value) { return None; }
      StoreClient(id.value, input);
      IncreaseClientCounter();
      OneMoreSet(old(kv), ClientWrites(id.value, input), COUNTER_KEY, ToBE(NextCounter(n.value), 8));
      ScriptStores(old(kv), clientType, input, v);
    }

    /** `store_client_type`, `store_any_client_state` and `store_any_consensus_state`. */
    method StoreClient(client: ClientId, input: Input)
      requires Coherent() && input.height.Some?
      modifies this
      ensures Coherent() && kv == SetAll(old(kv), ClientWrites(client, input))
      ensures log == old(log) + Sets(ClientWrites(client, input))
      ensures Lookup(kv, COUNTER_KEY) == Lookup(old(kv), COUNTER_KEY) && old(cache).Keys <= cache.Keys
    {
      ghost var writes := ClientWrites(client, input);
      ThreeSets(kv, writes);
      Set(Render(ClientType(client)), input.typeBytes);
      Set(Render(ClientStateKey(client)), input.clientState);
      Set(Render(ConsensusKey(client, input.height.value)), input.consensusState);
    }
  }

  /** The writes of the command store the client. */
  lemma ScriptStores(db: Db, clientType: string, input: Input, v: Option<Bytes>)
    requires Script(clientType, input, v).Some?
    ensures CounterOf(v).Some? && input.height.Some?
    ensures var n := CounterOf(v).value;
            ClientStored(db, SetAll(db, Script(clientType, input, v).value), GenClientId(clientType, n), input,
                         ToBE(NextCounter(n), 8))
  {
    var ws := Script(clientType, input, v).value;
    ScriptShape(clientType, input, v);
    FourSets(db, ws);
  }

  lemma FourSets(db: Db, w: seq<(string, Bytes)>)
    requires |w| == 4 && DistinctKeys(w)
    ensures var r := SetAll(db, w);
            && Lookup(r, w[0].0) == Some(w[0].1) && Lookup(r, w[1].0) == Some(w[1].1)
            && Lookup(r, w[2].0) == Some(w[2].1) && Lookup(r, w[3].0) == Some(w[3].1)
            && (forall k :: k != w[0].0 && k != w[1].0 && k != w[2].0 && k != w[3].0 ==> Lookup(r, k) == Lookup(db, k))
  {
    ThreeSets(db, w[..3]);
    assert w[..3] + [w[3]] == w;
    OneMoreSet(db, w[..3], w[3].0, w[3].1);
  }

  lemma OneMoreSet(db: Db, writes: seq<(string, Bytes)>, k: string, v: Bytes)
    ensures SetAll(db, writes + [(k, v)]) == SetAll(db, writes)[k := v]
    ensures Sets(writes + [(k, v)]) == Sets(writes) + [Wrote(k, Some(v))]
  {
    assert (writes + [(k, v)])[..|writes|] == writes;
  }

  lemma ThreeSets(db: Db, w: seq<(string, Bytes)>)
    requires |w| == 3
    ensures Sets(w) == [Wrote(w[0].0, Some(w[0].1)), Wrote(w[1].0, Some(w[1].1)), Wrote(w[2].0, Some(w[2].1))]
    ensures SetAll(db, w) == db[w[0].0 := w[0].1][w[1].0 := w[1].1][w[2].0 := w[2].1]
  {
    var w2, w1 := w[..2], w[..1];
    assert w2[..1] == w1 && w1[..0] == [];
    assert Sets(w1) == [Wrote(w[0].0, Some(w[0].1))] && SetAll(db, w1) == db[w[0].0 := w[0].1];
    assert Sets(w2) == Sets(w1) + [Wrote(w[1].0, Some(w[1].1))];
  }
}
