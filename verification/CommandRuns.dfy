/**
 Runs of the host store whose update transactions are enclave commands: under the type url of a
 client-state type the `init_client` command, under any other update key the `update_client` command.
 */
module CommandRuns {
  import opened Types
  import opened Paths
  import opened RocksDb
  import opened Serial
  import opened Serialisability
  import opened ClientContext

  /** The registered client-state types by type url, and the input of each transaction's command. */
  datatype Commands = Commands(types: map<UpdateKey, string>, inputs: TxId -> Input)

  function HandleKey(s: State, t: TxId): Option<UpdateKey> {
    if t in s.locks.handles then s.locks.handles[t].key else None
  }

  /** The paths `update_client` writes. */
  ghost predicate UpdatePath(k: string) {
    exists p: Key :: (p.ClientStateKey? || p.ConsensusKey?) && ValidClientId(p.id) && k == Render(p)
  }

  /** Each access of a creation is the next one of its program, and only a finished one commits. */
  ghost predicate Commanded(cs: Commands, h: History, step: Step) {
    match step
    case GetStep(t, k) =>
      var u := HandleKey(h.s, t);
      u.Some? && u.value in cs.types ==>
        NextAccess(cs.types[u.value], cs.inputs(t), LogOf(h, t)) == Some(ReadKey(k))
    case PutStep(t, k, v) =>
      var u := HandleKey(h.s, t);
      u.Some? ==>
        if u.value in cs.types
        then v.Some? && NextAccess(cs.types[u.value], cs.inputs(t), LogOf(h, t)) == Some(WriteKey(k, v.value))
        else UpdatePath(k)
    case CommitStep(t) =>
      var u := HandleKey(h.s, t);
      u.Some? && u.value in cs.types ==> Finished(cs.types[u.value], cs.inputs(t), LogOf(h, t))
    case _ => true
  }

  ghost predicate UpdateLog(log: seq<Op>) {
    forall i :: 0 <= i < |log| && log[i].Wrote? ==> UpdatePath(log[i].k)
  }

  /** The log of a running command so far. */
  ghost predicate FollowsCommand(cs: Commands, t: TxId, u: UpdateKey, log: seq<Op>) {
    if u in cs.types then Follows(cs.types[u], cs.inputs(t), log) else UpdateLog(log)
  }

  ghost predicate AllFollow(cs: Commands, h: History) {
    forall t, u :: Running(h.s, t, u) ==> FollowsCommand(cs, t, u, LogOf(h, t))
  }

  lemma ReadFollows(cs: Commands, h: History, t: TxId, u: UpdateKey, k: string, v: Option<Bytes>)
    requires Running(h.s, t, u) && FollowsCommand(cs, t, u, LogOf(h, t)) && Commanded(cs, h, GetStep(t, k))
    ensures FollowsCommand(cs, t, u, LogOf(h, t) + [Got(k, v)])
  {
    if u in cs.types { FollowsRead(cs.types[u], cs.inputs(t), LogOf(h, t), k, v); }
  }

  lemma WriteFollows(cs: Commands, h: History, t: TxId, u: UpdateKey, k: string, v: Option<Bytes>)
    requires Running(h.s, t, u) && FollowsCommand(cs, t, u, LogOf(h, t)) && Commanded(cs, h, PutStep(t, k, v))
    ensures FollowsCommand(cs, t, u, LogOf(h, t) + [Wrote(k, v)])
  {
    if u in cs.types { FollowsWrite(cs.types[u], cs.inputs(t), LogOf(h, t), k, v.value); }
  }

  lemma FollowsNext(cs: Commands, h: History, step: Step, h': History, t: TxId, u: UpdateKey)
    requires Inv(h.s) && AllFollow(cs, h) && Commanded(cs, h, step) && Record(h, step) == Some(h')
    requires Running(h'.s, t, u)
    ensures FollowsCommand(cs, t, u, LogOf(h', t))
  {
    if step != BeginStep(t) {
      RunningBefore(h.s, step, t, u);
      assert FollowsCommand(cs, t, u, LogOf(h, t));
      if step.GetStep? && step.t == t {
        ReadFollows(cs, h, t, u, step.k, TxGet(h.s, t, step.k).value);
      } else if step.PutStep? && step.t == t {
        WriteFollows(cs, h, t, u, step.k, step.v);
      } else {
        assert LogOf(h', t) == LogOf(h, t);
      }
    }
  }

  lemma AllFollowNext(cs: Commands, h: History, step: Step, h': History)
    requires Inv(h.s) && AllFollow(cs, h) && Commanded(cs, h, step) && Record(h, step) == Some(h')
    ensures AllFollow(cs, h')
  {
    forall t, u | Running(h'.s, t, u) ensures FollowsCommand(cs, t, u, LogOf(h', t)) {
      FollowsNext(cs, h, step, h', t, u);
    }
  }

  // ---------------------------------------------------------------------------------------
  // Conflict detection

  predicate IsUpdate(s: State, t: TxId) { t in s.txs && s.txs[t].kind == UpdateTx }

  /** RocksDB lets an update transaction write a key only if nobody changed the key since its snapshot
      and no other update transaction has written it; otherwise the write fails and the call aborts. */
  ghost predicate NoConflict(s: State, step: Step) {
    step.PutStep? && IsUpdate(s, step.t) ==>
      && Lookup(s.txs[step.t].snapshot, step.k) == Lookup(s.db, step.k)
      && (forall t :: IsUpdate(s, t) && t != step.t ==> step.k !in s.txs[t].buffer)
  }

  /** Written keys are locked: unchanged since the writer's snapshot and written by nobody else. */
  ghost predicate Exclusive(s: State) {
    && (forall t, k :: IsUpdate(s, t) && k in s.txs[t].buffer ==> Lookup(s.txs[t].snapshot, k) == Lookup(s.db, k))
    && (forall t, t', k :: IsUpdate(s, t) && IsUpdate(s, t') && t != t' && k in s.txs[t].buffer ==>
          k !in s.txs[t'].buffer)
  }

  lemma ExclusiveNext(s: State, step: Step, s': State)
    requires Inv(s) && Exclusive(s) && NoConflict(s, step) && Next(s, step) == Some(s')
    ensures Exclusive(s')
  {
    DbAfter(s, step);
    forall t | IsUpdate(s', t)
      ensures step != BeginStep(t) ==> IsUpdate(s, t)
      ensures forall k :: k in s'.txs[t].buffer ==> Lookup(s'.txs[t].snapshot, k) == Lookup(s'.db, k)
    {
      if step != BeginStep(t) { TxBefore(s, step, t); }
    }
    forall t, t', k | IsUpdate(s', t) && IsUpdate(s', t') && t != t' && k in s'.txs[t].buffer
      ensures k !in s'.txs[t'].buffer
    {
      if step != BeginStep(t) { TxBefore(s, step, t); }
      if step != BeginStep(t') { TxBefore(s, step, t'); }
    }
  }

  // ---------------------------------------------------------------------------------------
  // Runs

  ghost predicate CommandRun(cs: Commands, db0: Db, hs: seq<History>, steps: seq<Step>) {
    RecordedRun(db0, hs, steps) && forall i :: 0 <= i < |steps| ==> Commanded(cs, hs[i], steps[i])
  }

  ghost predicate ConflictFree(hs: seq<History>, steps: seq<Step>) {
    |hs| == |steps| + 1 && forall i :: 0 <= i < |steps| ==> NoConflict(hs[i].s, steps[i])
  }

  ghost predicate OneType(cs: Commands, typeUrl: UpdateKey) { cs.types.Keys == {typeUrl} }

  /** What keeps two creations from using one counter value: they have one type, hence one update key,
      or else the conflict detection of the store. */
  ghost predicate Guarded(cs: Commands, hs: seq<History>, steps: seq<Step>) {
    ConflictFree(hs, steps) || exists typeUrl :: OneType(cs, typeUrl)
  }

  ghost predicate Tracked(cs: Commands, h: History) { Inv(h.s) && LogsOk(h) && AllFollow(cs, h) }

  lemma {:induction false} RunIsTracked(cs: Commands, db0: Db, hs: seq<History>, steps: seq<Step>, i: nat)
    requires CommandRun(cs, db0, hs, steps) && i < |hs|
    ensures Tracked(cs, hs[i])
  {
    if i > 0 {
      RunIsTracked(cs, db0, hs, steps, i - 1);
      assert Recorded(hs, steps, i - 1);
      InvNext(hs[i - 1].s, steps[i - 1]);
      LogsOkNext(hs[i - 1], steps[i - 1]);
      AllFollowNext(cs, hs[i - 1], steps[i - 1], hs[i]);
    }
  }

  lemma {:induction false} RunIsExclusive(cs: Commands, db0: Db, hs: seq<History>, steps: seq<Step>, i: nat)
    requires CommandRun(cs, db0, hs, steps) && ConflictFree(hs, steps) && i < |hs|
    ensures Exclusive(hs[i].s)
  {
    if i > 0 {
      RunIsExclusive(cs, db0, hs, steps, i - 1);
      RecordedInv(db0, hs, steps, i - 1);
      assert Recorded(hs, steps, i - 1);
      ExclusiveNext(hs[i - 1].s, steps[i - 1], hs[i].s);
    }
  }

  /** With one type, its type url alone writes the counter. */
  ghost function CounterOwner(typeUrl: UpdateKey): Owner { k => if k == COUNTER_KEY then Some(typeUrl) else None }

  lemma UpdatePathIsNotCounter(k: string)
    requires UpdatePath(k)
    ensures k != COUNTER_KEY
  {
    var p: Key :| (p.ClientStateKey? || p.ConsensusKey?) && ValidClientId(p.id) && k == Render(p);
    if k == COUNTER_KEY { PathsNeverCollide(p, ClientCounter); }
  }

  lemma OneTypeKeepsOwners(cs: Commands, typeUrl: UpdateKey, h: History, step: Step)
    requires Commanded(cs, h, step) && OneType(cs, typeUrl)
    ensures KeepsOwners(CounterOwner(typeUrl), h.s, step)
  {
    if step.PutStep? && UpdatePath(step.k) { UpdatePathIsNotCounter(step.k); }
  }

  lemma {:induction false} RunOwnsCounter(cs: Commands, typeUrl: UpdateKey, db0: Db,
                                          hs: seq<History>, steps: seq<Step>, i: nat)
    requires CommandRun(cs, db0, hs, steps) && OneType(cs, typeUrl) && i < |hs|
    ensures AllCurrent(CounterOwner(typeUrl), hs[i].s)
  {
    if i > 0 {
      RunOwnsCounter(cs, typeUrl, db0, hs, steps, i - 1);
      RecordedInv(db0, hs, steps, i - 1);
      assert Recorded(hs, steps, i - 1);
      OneTypeKeepsOwners(cs, typeUrl, hs[i - 1], steps[i - 1]);
      AllCurrentNext(CounterOwner(typeUrl), hs[i - 1].s, steps[i - 1]);
    }
  }

  /** A creation that has written the counter saw the value it has now. */
  lemma CounterIsCurrent(cs: Commands, db0: Db, hs: seq<History>, steps: seq<Step>, i: nat, t: TxId, u: UpdateKey)
    requires CommandRun(cs, db0, hs, steps) && Guarded(cs, hs, steps) && i < |hs|
    requires Running(hs[i].s, t, u) && u in cs.types && COUNTER_KEY in hs[i].s.txs[t].buffer
    ensures Lookup(hs[i].s.txs[t].snapshot, COUNTER_KEY) == Lookup(hs[i].s.db, COUNTER_KEY)
  {
    if ConflictFree(hs, steps) {
      RunIsExclusive(cs, db0, hs, steps, i);
      RecordedInv(db0, hs, steps, i);
      assert IsUpdate(hs[i].s, t);
    } else {
      var typeUrl :| OneType(cs, typeUrl);
      RunOwnsCounter(cs, typeUrl, db0, hs, steps, i);
      assert u == typeUrl && Current(CounterOwner(typeUrl), hs[i].s, t, typeUrl);
    }
  }

  // ---------------------------------------------------------------------------------------
  // What a step does to data and commits

  datatype Data = Data(commits: seq<Commit>, db: Db)

  function DataOf(h: History): Data { Data(h.commits, h.s.db) }

  function NumberOf(log: seq<Op>): nat {
    if |log| > 0 && CounterOf(log[0].v).Some? then CounterOf(log[0].v).value else 0
  }

  ghost predicate IsCreation(log: seq<Op>, clientType: string, input: Input) {
    exists n :: Creates(log, clientType, n, input)
  }

  /** A creation under the number that is in the counter. */
  ghost predicate CreatesNext(log: seq<Op>, clientType: string, input: Input, db: Db) {
    IsCreation(log, clientType, input) && CounterOf(Lookup(db, COUNTER_KEY)) == Some(NumberOf(log))
  }

  ghost predicate Commits(cs: Commands, d: Data, c: Commit, d': Data) {
    && d'.commits == d.commits + [c] && d'.db == Overlay(d.db, Writes(c.log))
    && if c.key in cs.types then CreatesNext(c.log, cs.types[c.key], cs.inputs(c.id), d.db) else UpdateLog(c.log)
  }

  ghost predicate Grows(cs: Commands, d: Data, d': Data) {
    d' == d || exists c :: Commits(cs, d, c, d')
  }

  lemma {:induction false} FirstReadIs(db: Db, log: seq<Op>)
    requires Replay(db, log).Some? && |log| > 0 && log[0].Got?
    ensures log[0].v == Lookup(db, log[0].k)
  {
    if |log| == 1 {
      assert log[..0] == [];
    } else {
      FirstReadIs(db, log[..|log| - 1]);
    }
  }

  /** A finished creation that is about to commit. */
  lemma CreationCommits(cs: Commands, db0: Db, hs: seq<History>, steps: seq<Step>, i: nat, t: TxId, u: UpdateKey)
    requires CommandRun(cs, db0, hs, steps) && Guarded(cs, hs, steps) && i < |hs|
    requires Running(hs[i].s, t, u) && u in cs.types && Finished(cs.types[u], cs.inputs(t), LogOf(hs[i], t))
    ensures CreatesNext(LogOf(hs[i], t), cs.types[u], cs.inputs(t), hs[i].s.db)
  {
    var h, log := hs[i], LogOf(hs[i], t);
    RunIsTracked(cs, db0, hs, steps, i);
    assert FollowsCommand(cs, t, u, log) && TxOk(h, t);
    FinishedCreates(cs.types[u], cs.inputs(t), log);
    CounterIsCurrent(cs, db0, hs, steps, i, t, u);
    FirstReadIs(h.s.txs[t].snapshot, log);
  }

  lemma CommitGrows(cs: Commands, db0: Db, hs: seq<History>, steps: seq<Step>, i: nat, t: TxId, u: UpdateKey)
    requires CommandRun(cs, db0, hs, steps) && Guarded(cs, hs, steps) && i < |steps|
    requires steps[i] == CommitStep(t) && HandleKey(hs[i].s, t) == Some(u)
    ensures Commits(cs, DataOf(hs[i]), Commit(t, u, LockTime(hs[i], t), LogOf(hs[i], t)), DataOf(hs[i + 1]))
  {
    var h := hs[i];
    RunIsTracked(cs, db0, hs, steps, i);
    assert Recorded(hs, steps, i) && Commanded(cs, h, steps[i]);
    DbAfter(h.s, steps[i]);
    assert FollowsCommand(cs, t, u, LogOf(h, t)) && TxOk(h, t);
    if u in cs.types { CreationCommits(cs, db0, hs, steps, i, t, u); }
  }

  /** Every step commits a command or leaves data and commits alone. */
  lemma StepGrows(cs: Commands, db0: Db, hs: seq<History>, steps: seq<Step>, i: nat)
    requires CommandRun(cs, db0, hs, steps) && Guarded(cs, hs, steps) && i < |steps|
    ensures Grows(cs, DataOf(hs[i]), DataOf(hs[i + 1]))
  {
    var h, step := hs[i], steps[i];
    RecordedInv(db0, hs, steps, i);
    assert Recorded(hs, steps, i);
    if step.CommitStep? && HandleKey(h.s, step.t).Some? {
      CommitGrows(cs, db0, hs, steps, i, step.t, HandleKey(h.s, step.t).value);
    } else {
      DbAfter(h.s, step);
    }
  }
}
