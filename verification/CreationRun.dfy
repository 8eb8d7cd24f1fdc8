/**
 Creations that do run: from every reachable state without live handles the `init_client` command can be
 carried out step by step on the store, and its log there is the one its program prescribes. With the
 counter at its maximum, the creation after the next one replaces client number zero.
 */
module CreationRun {
  import opened Types
  import opened Paths
  import opened RocksDb
  import opened Serial
  import opened Serialisability
  import opened ClientContext
  import opened CommandRuns
  import opened FreshIds

  ghost predicate EndsIn(cs: Commands, db0: Db, hs: seq<History>, steps: seq<Step>, h: History) {
    CommandRun(cs, db0, hs, steps) && hs[|hs| - 1] == h
  }

  ghost predicate Reachable(cs: Commands, db0: Db, h: History) {
    exists hs, steps :: EndsIn(cs, db0, hs, steps, h)
  }

  lemma StartReachable(cs: Commands, db0: Db, readOnly: bool)
    ensures Reachable(cs, db0, Start(db0, readOnly))
  {
    assert EndsIn(cs, db0, [Start(db0, readOnly)], [], Start(db0, readOnly));
  }

  lemma NextReachable(cs: Commands, db0: Db, h: History, step: Step) returns (h': History)
    requires Reachable(cs, db0, h) && Commanded(cs, h, step) && Record(h, step).Some?
    ensures Record(h, step) == Some(h') && Reachable(cs, db0, h')
  {
    h' := Record(h, step).value;
    var hs, steps :| EndsIn(cs, db0, hs, steps, h);
    var hs', steps' := hs + [h'], steps + [step];
    forall i | 0 <= i < |steps'| ensures Recorded(hs', steps', i) && Commanded(cs, hs'[i], steps'[i]) {
      if i < |steps| { assert Recorded(hs, steps, i) && Commanded(cs, hs[i], steps[i]); }
    }
    assert EndsIn(cs, db0, hs', steps', h');
  }

  // ---------------------------------------------------------------------------------------
  // One creation, alone in the store

  ghost predicate Quiet(h: History) { Inv(h.s) && !h.s.readOnly && h.s.locks.handles == map[] }

  /** The creation `t` is the only live handle; it is begun on `db` and its log is `log`. */
  ghost predicate Alone(h: History, t: TxId, u: UpdateKey, db: Db, log: seq<Op>) {
    && Inv(h.s) && !h.s.readOnly && h.s.db == db && h.s.locks.latest == t
    && h.s.locks.handles.Keys == {t} && h.s.locks.handles[t].prepared && h.s.locks.handles[t].key == Some(u)
    && t in h.s.txs && h.s.txs[t] == StoreTx(UpdateTx, db, Writes(log)) && LogOf(h, t) == log
  }

  lemma Created(h: History, u: UpdateKey)
    requires Quiet(h) && u != "" && h.s.locks.latest + 1 < 0x1_0000_0000_0000_0000
    ensures var r := Record(h, CreateStep(Some(u)));
            && r.Some? && Inv(r.value.s) && !r.value.s.readOnly && r.value.s.db == h.s.db
            && var l, t := r.value.s.locks, h.s.locks.latest + 1;
            && l.latest == t && l.handles.Keys == {t} && !l.handles[t].prepared && l.handles[t].key == Some(u)
  {
    InvNext(h.s, CreateStep(Some(u)));
  }

  lemma Prepared(h: History, t: TxId, u: UpdateKey)
    requires Inv(h.s) && h.s.locks.handles.Keys == {t}
    requires h.s.locks.handles[t].key == Some(u) && !h.s.locks.handles[t].prepared
    ensures var r := Record(h, PrepareStep(t));
            && r.Some? && Inv(r.value.s) && r.value.s.readOnly == h.s.readOnly && r.value.s.db == h.s.db
            && var l := r.value.s.locks;
            && l.latest == h.s.locks.latest
            && l.handles.Keys == {t} && l.handles[t].prepared && l.handles[t].key == Some(u)
  {
    NothingHeld(h.s.locks, t);
    InvNext(h.s, PrepareStep(t));
  }

  lemma NothingHeld(l: Locks, t: TxId)
    requires LocksOk(l) && l.handles.Keys == {t} && !l.handles[t].prepared
    ensures l.locked == map[]
  {
    assert forall m :: m !in l.locked.Keys;
  }

  lemma BegunAlone(h: History, t: TxId, u: UpdateKey)
    requires Inv(h.s) && !h.s.readOnly && h.s.locks.handles.Keys == {t} && h.s.locks.latest == t
    requires h.s.locks.handles[t].key == Some(u) && h.s.locks.handles[t].prepared
    ensures Record(h, BeginStep(t)).Some? && Alone(Record(h, BeginStep(t)).value, t, u, h.s.db, [])
  {
    InvNext(h.s, BeginStep(t));
  }

  /** Create, prepare and begin. */
  lemma Starts(cs: Commands, db0: Db, h: History, u: UpdateKey) returns (h': History)
    requires Reachable(cs, db0, h) && Quiet(h) && u != "" && h.s.locks.latest + 1 < 0x1_0000_0000_0000_0000
    ensures Reachable(cs, db0, h') && Alone(h', h.s.locks.latest + 1, u, h.s.db, [])
  {
    var t := h.s.locks.latest + 1;
    Created(h, u);
    var h1 := NextReachable(cs, db0, h, CreateStep(Some(u)));
    Prepared(h1, t, u);
    var h2 := NextReachable(cs, db0, h1, PrepareStep(t));
    BegunAlone(h2, t, u);
    h' := NextReachable(cs, db0, h2, BeginStep(t));
  }

  lemma ReadAlone(h: History, t: TxId, u: UpdateKey, db: Db, k: string)
    requires Alone(h, t, u, db, [])
    ensures Record(h, GetStep(t, k)).Some?
    ensures Alone(Record(h, GetStep(t, k)).value, t, u, db, [Got(k, Lookup(db, k))])
  {
    assert Record(h, GetStep(t, k)).value.s == h.s;
    var empty: seq<Op> := [];
    assert empty + [Got(k, Lookup(db, k))] == [Got(k, Lookup(db, k))];
    ReplayExtend(db, empty, Got(k, Lookup(db, k)));
  }

  lemma WriteAlone(h: History, t: TxId, u: UpdateKey, db: Db, log: seq<Op>, k: string, v: Bytes)
    requires Alone(h, t, u, db, log)
    ensures Record(h, PutStep(t, k, Some(v))).Some?
    ensures Alone(Record(h, PutStep(t, k, Some(v))).value, t, u, db, log + [Wrote(k, Some(v))])
  {
    ReplayExtend(db, log, Wrote(k, Some(v)));
    InvNext(h.s, PutStep(t, k, Some(v)));
  }

  /** The next write of the program. */
  lemma WritesOne(cs: Commands, db0: Db, h: History, t: TxId, u: UpdateKey, db: Db, log: seq<Op>)
    returns (h': History, op: Op)
    requires Reachable(cs, db0, h) && Alone(h, t, u, db, log) && u in cs.types
    requires 1 <= |log| < 5 && Script(cs.types[u], cs.inputs(t), log[0].v).Some?
    ensures Reachable(cs, db0, h') && Alone(h', t, u, db, log + [op])
  {
    var w := Script(cs.types[u], cs.inputs(t), log[0].v).value[|log| - 1];
    assert NextAccess(cs.types[u], cs.inputs(t), log) == Some(WriteKey(w.0, w.1));
    WriteAlone(h, t, u, db, log, w.0, w.1);
    h' := NextReachable(cs, db0, h, PutStep(t, w.0, Some(w.1)));
    op := Wrote(w.0, Some(w.1));
  }

  /** The writes that are left, one after another. */
  lemma {:induction false} WritesAll(cs: Commands, db0: Db, h: History, t: TxId, u: UpdateKey, db: Db, log: seq<Op>)
    returns (h': History, log': seq<Op>)
    requires Reachable(cs, db0, h) && Alone(h, t, u, db, log) && u in cs.types
    requires 1 <= |log| <= 5 && Script(cs.types[u], cs.inputs(t), log[0].v).Some?
    ensures Reachable(cs, db0, h') && Alone(h', t, u, db, log') && |log'| == 5 && log'[0] == log[0]
    decreases 5 - |log|
  {
    if |log| == 5 {
      h', log' := h, log;
    } else {
      var next, op := WritesOne(cs, db0, h, t, u, db, log);
      assert (log + [op])[0] == log[0];
      h', log' := WritesAll(cs, db0, next, t, u, db, log + [op]);
    }
  }

  /** From a quiet reachable state a creation runs until it is ready to commit, under the number in the
      counter; its log in the store is then a creation's. */
  lemma CreatesOnce(cs: Commands, db0: Db, h: History, u: UpdateKey) returns (h': History, t: TxId)
    requires Reachable(cs, db0, h) && Quiet(h) && u != "" && h.s.locks.latest + 1 < 0x1_0000_0000_0000_0000
    requires u in cs.types
    requires Script(cs.types[u], cs.inputs(h.s.locks.latest + 1), Lookup(h.s.db, COUNTER_KEY)).Some?
    ensures Reachable(cs, db0, h') && Alone(h', t, u, h.s.db, LogOf(h', t)) && t == h.s.locks.latest + 1
    ensures Commanded(cs, h', CommitStep(t)) && Record(h', CommitStep(t)).Some?
    ensures CreatesNext(LogOf(h', t), cs.types[u], cs.inputs(t), h.s.db)
  {
    t := h.s.locks.latest + 1;
    var db := h.s.db;
    var h1 := Starts(cs, db0, h, u);
    ReadAlone(h1, t, u, db, COUNTER_KEY);
    var h2 := NextReachable(cs, db0, h1, GetStep(t, COUNTER_KEY));
    var log := [Got(COUNTER_KEY, Lookup(db, COUNTER_KEY))];
    var log';
    h', log' := WritesAll(cs, db0, h2, t, u, db, log);
    CommitEnabled(h', t, u, db, log');
    FinishedAlone(cs, db0, h', t, u, db, log');
  }

  lemma CommitEnabled(h: History, t: TxId, u: UpdateKey, db: Db, log: seq<Op>)
    requires Alone(h, t, u, db, log)
    ensures Record(h, CommitStep(t)).Some?
  {
  }

  lemma FinishedAlone(cs: Commands, db0: Db, h: History, t: TxId, u: UpdateKey, db: Db, log: seq<Op>)
    requires Reachable(cs, db0, h) && Running(h.s, t, u) && LogOf(h, t) == log && u in cs.types
    requires |log| == 5 && log[0] == Got(COUNTER_KEY, Lookup(db, COUNTER_KEY))
    requires Script(cs.types[u], cs.inputs(t), log[0].v).Some?
    ensures Commanded(cs, h, CommitStep(t)) && CreatesNext(log, cs.types[u], cs.inputs(t), db)
  {
    LogFollows(cs, db0, h, t, u);
    FinishedCreates(cs.types[u], cs.inputs(t), log);
  }

  lemma LogFollows(cs: Commands, db0: Db, h: History, t: TxId, u: UpdateKey)
    requires Reachable(cs, db0, h) && Running(h.s, t, u) && u in cs.types
    ensures Follows(cs.types[u], cs.inputs(t), LogOf(h, t))
  {
    var hs, steps :| EndsIn(cs, db0, hs, steps, h);
    RunIsTracked(cs, db0, hs, steps, |hs| - 1);
    assert FollowsCommand(cs, t, u, LogOf(h, t));
  }

  /** Its commit leaves the store quiet again. */
  lemma CommitsOnce(cs: Commands, db0: Db, h: History, t: TxId, u: UpdateKey, db: Db) returns (h': History)
    requires Reachable(cs, db0, h) && Alone(h, t, u, db, LogOf(h, t))
    requires Commanded(cs, h, CommitStep(t)) && Record(h, CommitStep(t)).Some?
    ensures Reachable(cs, db0, h') && Quiet(h') && h'.s.db == Overlay(db, Writes(LogOf(h, t)))
    ensures h'.s.locks.latest == h.s.locks.latest
  {
    h' := NextReachable(cs, db0, h, CommitStep(t));
    InvNext(h.s, CommitStep(t));
    DbAfter(h.s, CommitStep(t));
    OtherHandles(h.s, CommitStep(t));
    assert h'.s.locks.handles.Keys == {};
  }

  // ---------------------------------------------------------------------------------------
  // Replacing a client

  /** With the counter at its maximum and client zero present, two creations in a row: the second gets
      number zero and is about to replace that client. */
  lemma WrappedCounterReplaces(cs: Commands, db0: Db, u: UpdateKey) returns (h: History, t: TxId)
    requires u != "" && u in cs.types && CounterOf(Lookup(db0, COUNTER_KEY)) == Some(COUNTERS - 1)
    requires forall t :: cs.inputs(t).height.Some?
    requires ValidClientId(GenClientId(cs.types[u], COUNTERS - 1)) && ValidClientId(GenClientId(cs.types[u], 0))
    requires TypeKey(cs.types[u], 0) in db0
    ensures Reachable(cs, db0, h) && HandleKey(h.s, t) == Some(u)
    ensures Commanded(cs, h, CommitStep(t)) && Record(h, CommitStep(t)).Some?
    ensures IsCreation(LogOf(h, t), cs.types[u], cs.inputs(t)) && NumberOf(LogOf(h, t)) == 0
    ensures TypeKey(cs.types[u], 0) in h.s.db
  {
    var h1 := FirstWraps(cs, db0, u);
    h, t := CreatesOnce(cs, db0, h1, u);
  }

  /** The first creation takes the last number and leaves the counter at zero. */
  lemma FirstWraps(cs: Commands, db0: Db, u: UpdateKey) returns (h: History)
    requires u != "" && u in cs.types && CounterOf(Lookup(db0, COUNTER_KEY)) == Some(COUNTERS - 1)
    requires forall t :: cs.inputs(t).height.Some?
    requires ValidClientId(GenClientId(cs.types[u], COUNTERS - 1)) && ValidClientId(GenClientId(cs.types[u], 0))
    requires TypeKey(cs.types[u], 0) in db0
    ensures Reachable(cs, db0, h) && Quiet(h) && h.s.locks.latest == 1
    ensures CounterOf(Lookup(h.s.db, COUNTER_KEY)) == Some(0) && TypeKey(cs.types[u], 0) in h.s.db
  {
    StartReachable(cs, db0, false);
    QuietStart(db0);
    var h1, t1 := CreatesOnce(cs, db0, Start(db0, false), u);
    h := CommitsOnce(cs, db0, h1, t1, u, db0);
    CounterWraps(cs.types[u], cs.inputs(t1), db0, LogOf(h1, t1));
  }

  lemma CounterWraps(clientType: string, input: Input, db: Db, log: seq<Op>)
    requires IsCreation(log, clientType, input) && NumberOf(log) == COUNTERS - 1
    requires ValidClientId(GenClientId(clientType, 0)) && TypeKey(clientType, 0) in db
    ensures CounterOf(Lookup(Overlay(db, Writes(log)), COUNTER_KEY)) == Some(0)
    ensures TypeKey(clientType, 0) in Overlay(db, Writes(log))
  {
    CreationLeavesCounter(clientType, input, db, log);
    MaximumWraps(NumberOf(log));
    CreationLeavesOthers(clientType, input, db, log, clientType, 0);
    SameLookup(db, Overlay(db, Writes(log)), TypeKey(clientType, 0));
  }

  lemma MaximumWraps(n: nat)
    requires n == COUNTERS - 1
    ensures NextCounter(n) == 0
  {
  }

  lemma QuietStart(db0: Db)
    ensures Quiet(Start(db0, false)) && Start(db0, false).s.db == db0 && Start(db0, false).s.locks.latest == 0
  {
  }
}
