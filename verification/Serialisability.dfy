/**
 Serialisability per update key. A history records what each transaction read and wrote and the
 update transactions in commit order; a run of the store that keeps the footprints of different
 update keys apart reads and leaves exactly what replaying the committed logs one after another does.
 */
module Serialisability {
  import opened Types
  import opened RocksDb
  import opened Serial

  /** A committed update transaction; `lockedAt` numbers it by when it took its mutex. */
  datatype Commit = Commit(id: TxId, key: UpdateKey, lockedAt: nat, log: seq<Op>)

  datatype History = History(
    s: State, logs: map<TxId, seq<Op>>, commits: seq<Commit>, lockedAt: map<TxId, nat>, clock: nat)

  function Start(db: Db, readOnly: bool): History { History(Init(db, readOnly), map[], [], map[], 0) }

  function LogOf(h: History, t: TxId): seq<Op> { if t in h.logs then h.logs[t] else [] }

  function LockTime(h: History, t: TxId): nat { if t in h.lockedAt then h.lockedAt[t] else 0 }

  /** `t` is begun and its handle, of update key `u`, is live. */
  predicate Running(s: State, t: TxId, u: UpdateKey) {
    t in s.txs && t in s.locks.handles && s.locks.handles[t].key == Some(u)
  }

  function NextLogs(h: History, step: Step): map<TxId, seq<Op>> {
    match step
    case BeginStep(t) => h.logs[t := []]
    case GetStep(t, k) =>
      (match TxGet(h.s, t, k)
       case None => h.logs
       case Some(v) => h.logs[t := LogOf(h, t) + [Got(k, v)]])
    case PutStep(t, k, v) => h.logs[t := LogOf(h, t) + [Wrote(k, v)]]
    case _ => h.logs
  }

  function NextCommits(h: History, step: Step): seq<Commit> {
    if step.CommitStep? && step.t in h.s.locks.handles && h.s.locks.handles[step.t].key.Some?
    then h.commits + [Commit(step.t, h.s.locks.handles[step.t].key.value, LockTime(h, step.t), LogOf(h, step.t))]
    else h.commits
  }

  function Record(h: History, step: Step): Option<History> {
    match Next(h.s, step)
    case None => None
    case Some(s) => Some(History(s, NextLogs(h, step), NextCommits(h, step),
                                 if step.PrepareStep? then h.lockedAt[step.t := h.clock] else h.lockedAt, h.clock + 1))
  }

  /** Replaying whole transactions in order. */
  function SerialRun(db: Db, commits: seq<Commit>): Option<Db> {
    if |commits| == 0 then Some(db)
    else
      match SerialRun(db, commits[..|commits| - 1])
      case None => None
      case Some(d) => Replay(d, commits[|commits| - 1].log)
  }

  // ---------------------------------------------------------------------------------------
  // What a step can change

  /** Transactions running side by side have different update keys. */
  lemma RunningApart(s: State, t: TxId, u: UpdateKey, t': TxId, u': UpdateKey)
    requires Inv(s) && Running(s, t, u) && Running(s, t', u') && t != t'
    ensures u != u'
  {
  }

  lemma TxBefore(s: State, step: Step, t: TxId)
    requires Inv(s) && Next(s, step).Some? && t in Next(s, step).value.txs && step != BeginStep(t)
    ensures t in s.txs
    ensures !(step.PutStep? && step.t == t) ==> Next(s, step).value.txs[t] == s.txs[t]
    ensures step.PutStep? && step.t == t ==>
              Next(s, step).value.txs[t] == s.txs[t].(buffer := s.txs[t].buffer[step.k := step.v])
  {
  }

  lemma HandleBefore(s: State, step: Step, t: TxId)
    requires Next(s, step).Some? && t in Next(s, step).value.locks.handles && t <= s.locks.latest
    ensures t in s.locks.handles && Next(s, step).value.locks.handles[t].key == s.locks.handles[t].key
  {
  }

  /** A transaction running after a step was running before, unless the step began it. */
  lemma RunningBefore(s: State, step: Step, t: TxId, u: UpdateKey)
    requires Inv(s) && Next(s, step).Some? && Running(Next(s, step).value, t, u) && step != BeginStep(t)
    ensures Running(s, t, u)
  {
    TxBefore(s, step, t);
    HandleBefore(s, step, t);
  }

  /** Only committing a running update transaction changes the committed data. */
  lemma DbAfter(s: State, step: Step)
    requires Inv(s) && Next(s, step).Some?
    ensures step.CommitStep? && s.locks.handles[step.t].key.Some? ==>
              && Running(s, step.t, s.locks.handles[step.t].key.value)
              && Next(s, step).value.db == Overlay(s.db, s.txs[step.t].buffer)
              && step.t !in Next(s, step).value.txs
    ensures !(step.CommitStep? && s.locks.handles[step.t].key.Some?) ==> Next(s, step).value.db == s.db
  {
  }

  // ---------------------------------------------------------------------------------------
  // Logs

  /** What a transaction has seen is what its log, replayed on its snapshot, sees. */
  ghost predicate TxOk(h: History, t: TxId)
    requires t in h.s.txs
  {
    var x, log := h.s.txs[t], LogOf(h, t);
    x.buffer == Writes(log) && Replay(x.snapshot, log) == Some(Overlay(x.snapshot, x.buffer))
  }

  ghost predicate LogsOk(h: History) { forall t :: t in h.s.txs ==> TxOk(h, t) }

  lemma TxOkNext(h: History, step: Step, t: TxId)
    requires Inv(h.s) && LogsOk(h) && Record(h, step).Some? && t in Record(h, step).value.s.txs
    ensures TxOk(Record(h, step).value, t)
  {
    var h' := Record(h, step).value;
    if step == BeginStep(t) {
      OverlayNothing(h.s.db);
    } else {
      TxBefore(h.s, step, t);
      assert TxOk(h, t);
      var x, log := h.s.txs[t], LogOf(h, t);
      if step.PutStep? && step.t == t {
        ReplayExtend(x.snapshot, log, Wrote(step.k, step.v));
        OverlayPut(x.snapshot, x.buffer, step.k, step.v);
      } else if step.GetStep? && step.t == t {
        ReplayExtend(x.snapshot, log, Got(step.k, Read(x.snapshot, x.buffer, step.k)));
      }
    }
  }

  lemma LogsOkNext(h: History, step: Step)
    requires Inv(h.s) && LogsOk(h) && Record(h, step).Some?
    ensures LogsOk(Record(h, step).value)
  {
    forall t | t in Record(h, step).value.s.txs ensures TxOk(Record(h, step).value, t) { TxOkNext(h, step, t); }
  }

  // ---------------------------------------------------------------------------------------
  // Exclusive keys

  /** Which update key alone may write a key; `None` leaves the key unconstrained. */
  type Owner = string -> Option<UpdateKey>

  /** A write to an owned key comes from its owner. */
  predicate KeepsOwners(owner: Owner, s: State, step: Step) {
    step.PutStep? && step.t in s.locks.handles && s.locks.handles[step.t].key.Some? && owner(step.k).Some? ==>
      owner(step.k) == s.locks.handles[step.t].key
  }

  /** A running transaction sees the committed values of the keys its update key owns. */
  ghost predicate Current(owner: Owner, s: State, t: TxId, u: UpdateKey)
    requires t in s.txs
  {
    && (forall k :: owner(k) == Some(u) ==> Lookup(s.txs[t].snapshot, k) == Lookup(s.db, k))
    && (forall k :: k in s.txs[t].buffer && owner(k).Some? ==> owner(k).value == u)
  }

  ghost predicate AllCurrent(owner: Owner, s: State) {
    forall t, u :: Running(s, t, u) ==> Current(owner, s, t, u)
  }

  lemma CurrentNext(owner: Owner, s: State, step: Step, t: TxId, u: UpdateKey)
    requires Inv(s) && AllCurrent(owner, s) && KeepsOwners(owner, s, step)
    requires Next(s, step).Some? && Running(Next(s, step).value, t, u)
    ensures Current(owner, Next(s, step).value, t, u)
  {
    var s' := Next(s, step).value;
    if step != BeginStep(t) {
      RunningBefore(s, step, t, u);
      TxBefore(s, step, t);
      assert Current(owner, s, t, u);
      DbAfter(s, step);
      if step.CommitStep? && s.locks.handles[step.t].key.Some? {
        var v := s.locks.handles[step.t].key.value;
        RunningApart(s, t, u, step.t, v);
        assert Current(owner, s, step.t, v);
      }
    }
  }

  lemma AllCurrentNext(owner: Owner, s: State, step: Step)
    requires Inv(s) && AllCurrent(owner, s) && KeepsOwners(owner, s, step) && Next(s, step).Some?
    ensures AllCurrent(owner, Next(s, step).value)
  {
    forall t, u | Running(Next(s, step).value, t, u) ensures Current(owner, Next(s, step).value, t, u) {
      CurrentNext(owner, s, step, t, u);
    }
  }

  // ---------------------------------------------------------------------------------------
  // Disjoint footprints

  /** An update transaction reads and writes only keys of its update key. */
  predicate KeepsApart(owner: Owner, s: State, step: Step) {
    (step.GetStep? || step.PutStep?) && step.t in s.locks.handles && s.locks.handles[step.t].key.Some? ==>
      owner(step.k) == s.locks.handles[step.t].key
  }

  ghost predicate Within(owner: Owner, log: seq<Op>, u: UpdateKey) {
    forall i :: 0 <= i < |log| ==> owner(log[i].k) == Some(u)
  }

  ghost predicate RunningWithin(owner: Owner, h: History) {
    forall t, u :: Running(h.s, t, u) ==> Within(owner, LogOf(h, t), u)
  }

  ghost predicate CommitsWithin(owner: Owner, commits: seq<Commit>) {
    forall i :: 0 <= i < |commits| ==> Within(owner, commits[i].log, commits[i].key)
  }

  lemma WithinNext(owner: Owner, h: History, step: Step, t: TxId, u: UpdateKey)
    requires Running(h.s, t, u) && Within(owner, LogOf(h, t), u) && KeepsApart(owner, h.s, step)
    requires Record(h, step).Some?
    ensures Within(owner, LogOf(Record(h, step).value, t), u)
  {
  }

  lemma RunningWithinNext(owner: Owner, h: History, step: Step)
    requires Inv(h.s) && RunningWithin(owner, h) && KeepsApart(owner, h.s, step) && Record(h, step).Some?
    ensures RunningWithin(owner, Record(h, step).value)
  {
    var h' := Record(h, step).value;
    forall t, u | Running(h'.s, t, u) ensures Within(owner, LogOf(h', t), u) {
      if step != BeginStep(t) {
        RunningBefore(h.s, step, t, u);
        WithinNext(owner, h, step, t, u);
      }
    }
  }

  /** One more commit leaves what one more serial transaction leaves. */
  lemma CommitReplays(owner: Owner, h: History, t: TxId, u: UpdateKey)
    requires LogsOk(h) && AllCurrent(owner, h.s) && RunningWithin(owner, h) && Running(h.s, t, u)
    ensures Replay(h.s.db, LogOf(h, t)) == Some(Overlay(h.s.db, h.s.txs[t].buffer))
  {
    assert TxOk(h, t) && Current(owner, h.s, t, u) && Within(owner, LogOf(h, t), u);
    ReplayElsewhere(h.s.txs[t].snapshot, h.s.db, LogOf(h, t));
  }

  lemma SerialRunExtend(db: Db, commits: seq<Commit>, c: Commit)
    ensures SerialRun(db, commits + [c])
         == match SerialRun(db, commits) case None => None case Some(d) => Replay(d, c.log)
  {
    assert (commits + [c])[..|commits|] == commits;
  }

  ghost predicate Serialised(owner: Owner, db0: Db, h: History) {
    && Inv(h.s) && LogsOk(h) && AllCurrent(owner, h.s) && RunningWithin(owner, h)
    && CommitsWithin(owner, h.commits)
    && SerialRun(db0, h.commits) == Some(h.s.db)
  }

  lemma SerialisedCommit(owner: Owner, db0: Db, h: History, t: TxId, u: UpdateKey)
    requires Serialised(owner, db0, h) && Running(h.s, t, u)
    ensures var commits := h.commits + [Commit(t, u, LockTime(h, t), LogOf(h, t))];
            && SerialRun(db0, commits) == Some(Overlay(h.s.db, h.s.txs[t].buffer))
            && CommitsWithin(owner, commits)
  {
    CommitReplays(owner, h, t, u);
    SerialRunExtend(db0, h.commits, Commit(t, u, LockTime(h, t), LogOf(h, t)));
  }

  lemma SerialisedCommits(owner: Owner, db0: Db, h: History, step: Step)
    requires Serialised(owner, db0, h) && Next(h.s, step).Some?
    ensures SerialRun(db0, NextCommits(h, step)) == Some(Next(h.s, step).value.db)
    ensures CommitsWithin(owner, NextCommits(h, step))
  {
    DbAfter(h.s, step);
    if step.CommitStep? && h.s.locks.handles[step.t].key.Some? {
      SerialisedCommit(owner, db0, h, step.t, h.s.locks.handles[step.t].key.value);
    }
  }

  lemma KeepsApartKeepsOwners(owner: Owner, s: State, step: Step)
    requires KeepsApart(owner, s, step)
    ensures KeepsOwners(owner, s, step)
  {
  }

  lemma SerialisedNext(owner: Owner, db0: Db, h: History, step: Step)
    requires Serialised(owner, db0, h) && KeepsApart(owner, h.s, step) && Record(h, step).Some?
    ensures Serialised(owner, db0, Record(h, step).value)
  {
    KeepsApartKeepsOwners(owner, h.s, step);
    InvNext(h.s, step);
    LogsOkNext(h, step);
    AllCurrentNext(owner, h.s, step);
    RunningWithinNext(owner, h, step);
    SerialisedCommits(owner, db0, h, step);
  }

  // ---------------------------------------------------------------------------------------
  // Lock order

  ghost predicate HoldsKey(s: State, t: TxId, u: UpdateKey) {
    t in s.locks.handles && s.locks.handles[t].prepared && s.locks.handles[t].key == Some(u)
  }

  /** Commits of one update key come in the order in which they took its mutex. */
  ghost predicate InLockOrder(commits: seq<Commit>) {
    forall i, j :: 0 <= i < j < |commits| && commits[i].key == commits[j].key ==>
      commits[i].lockedAt < commits[j].lockedAt
  }

  ghost predicate LockedAfter(h: History, t: TxId, u: UpdateKey) {
    && LockTime(h, t) < h.clock
    && (forall i :: 0 <= i < |h.commits| && h.commits[i].key == u ==> h.commits[i].lockedAt < LockTime(h, t))
  }

  /** The holder of a mutex took it after every commit of its update key. */
  ghost predicate HolderIsNext(h: History) {
    && (forall i :: 0 <= i < |h.commits| ==> h.commits[i].lockedAt < h.clock)
    && (forall t, u :: HoldsKey(h.s, t, u) ==> LockedAfter(h, t, u))
  }

  /** The holder after a step held before, unless the step gave it the mutex. */
  lemma HolderBefore(s: State, step: Step, t: TxId, u: UpdateKey)
    requires Next(s, step).Some? && HoldsKey(Next(s, step).value, t, u) && step != PrepareStep(t)
    ensures HoldsKey(s, t, u)
  {
  }

  lemma HolderNotCommitted(s: State, step: Step, t: TxId, u: UpdateKey)
    requires Inv(s) && Next(s, step).Some? && step.CommitStep?
    requires HoldsKey(s, t, u) && HoldsKey(Next(s, step).value, t, u)
    ensures s.locks.handles[step.t].key != Some(u)
  {
  }

  lemma LockedAfterNext(h: History, step: Step, t: TxId, u: UpdateKey)
    requires Inv(h.s) && HolderIsNext(h) && Record(h, step).Some? && HoldsKey(Next(h.s, step).value, t, u)
    ensures LockedAfter(Record(h, step).value, t, u)
  {
    if step != PrepareStep(t) {
      HolderBefore(h.s, step, t, u);
      if step.CommitStep? { HolderNotCommitted(h.s, step, t, u); }
      LockedAfterStays(h, step, t, u);
    }
  }

  lemma LockedAfterStays(h: History, step: Step, t: TxId, u: UpdateKey)
    requires LockedAfter(h, t, u) && Record(h, step).Some? && step != PrepareStep(t)
    requires step.CommitStep? ==> h.s.locks.handles[step.t].key != Some(u)
    ensures LockedAfter(Record(h, step).value, t, u)
  {
  }

  lemma HolderIsNextNext(h: History, step: Step)
    requires Inv(h.s) && HolderIsNext(h) && Record(h, step).Some?
    ensures HolderIsNext(Record(h, step).value)
  {
    var h' := Record(h, step).value;
    forall t, u | HoldsKey(h'.s, t, u) ensures LockedAfter(h', t, u) { LockedAfterNext(h, step, t, u); }
    forall i | 0 <= i < |h'.commits| ensures h'.commits[i].lockedAt < h'.clock {
      if i == |h.commits| { assert HoldsKey(h.s, step.t, h'.commits[i].key); }
    }
  }

  lemma InLockOrderNext(h: History, step: Step)
    requires HolderIsNext(h) && InLockOrder(h.commits) && Next(h.s, step).Some?
    ensures InLockOrder(NextCommits(h, step))
  {
    if step.CommitStep? && h.s.locks.handles[step.t].key.Some? {
      assert HoldsKey(h.s, step.t, h.s.locks.handles[step.t].key.value);
    }
  }

  // ---------------------------------------------------------------------------------------
  // Whole runs

  ghost predicate Recorded(hs: seq<History>, steps: seq<Step>, i: nat)
    requires |hs| == |steps| + 1 && i < |steps|
  {
    Record(hs[i], steps[i]) == Some(hs[i + 1])
  }

  /** A run of the store from `db0` together with its history. */
  ghost predicate RecordedRun(db0: Db, hs: seq<History>, steps: seq<Step>) {
    && |hs| == |steps| + 1
    && (exists readOnly :: hs[0] == Start(db0, readOnly))
    && (forall i :: 0 <= i < |steps| ==> Recorded(hs, steps, i))
  }

  ghost predicate Apart(owner: Owner, hs: seq<History>, steps: seq<Step>) {
    |hs| == |steps| + 1 && forall i :: 0 <= i < |steps| ==> KeepsApart(owner, hs[i].s, steps[i])
  }

  /** The snapshot of a transaction is the data after some of the commits, run serially. */
  ghost predicate SnapshotIsPrefix(db0: Db, commits: seq<Commit>, snapshot: Db) {
    exists j :: 0 <= j <= |commits| && SerialRun(db0, commits[..j]) == Some(snapshot)
  }

  ghost predicate SnapshotsArePrefixes(db0: Db, h: History) {
    forall t :: t in h.s.txs ==> SnapshotIsPrefix(db0, h.commits, h.s.txs[t].snapshot)
  }

  lemma PrefixGrows(db0: Db, commits: seq<Commit>, more: seq<Commit>, snapshot: Db)
    requires SnapshotIsPrefix(db0, commits, snapshot)
    ensures SnapshotIsPrefix(db0, commits + more, snapshot)
  {
    var j :| 0 <= j <= |commits| && SerialRun(db0, commits[..j]) == Some(snapshot);
    assert (commits + more)[..j] == commits[..j];
  }

  lemma PrefixesNext(db0: Db, h: History, step: Step)
    requires Inv(h.s) && SnapshotsArePrefixes(db0, h) && SerialRun(db0, h.commits) == Some(h.s.db)
    requires Record(h, step).Some?
    ensures SnapshotsArePrefixes(db0, Record(h, step).value)
  {
    var h' := Record(h, step).value;
    var more := h'.commits[|h.commits|..];
    assert h'.commits == h.commits + more && h.commits == h.commits[..|h.commits|];
    forall t | t in h'.s.txs ensures SnapshotIsPrefix(db0, h'.commits, h'.s.txs[t].snapshot) {
      if step != BeginStep(t) { TxBefore(h.s, step, t); }
      PrefixGrows(db0, h.commits, more, h'.s.txs[t].snapshot);
    }
  }

  lemma {:induction false} RecordedInv(db0: Db, hs: seq<History>, steps: seq<Step>, i: nat)
    requires RecordedRun(db0, hs, steps) && i < |hs|
    ensures Inv(hs[i].s)
  {
    if i > 0 {
      RecordedInv(db0, hs, steps, i - 1);
      assert Recorded(hs, steps, i - 1);
      InvNext(hs[i - 1].s, steps[i - 1]);
    }
  }

  lemma {:induction false} RunInLockOrder(db0: Db, hs: seq<History>, steps: seq<Step>, i: nat)
    requires RecordedRun(db0, hs, steps) && i < |hs|
    ensures HolderIsNext(hs[i]) && InLockOrder(hs[i].commits)
  {
    if i > 0 {
      RunInLockOrder(db0, hs, steps, i - 1);
      RecordedInv(db0, hs, steps, i - 1);
      assert Recorded(hs, steps, i - 1);
      HolderIsNextNext(hs[i - 1], steps[i - 1]);
      InLockOrderNext(hs[i - 1], steps[i - 1]);
    }
  }

  lemma {:induction false} RunIsSerialised(owner: Owner, db0: Db, hs: seq<History>, steps: seq<Step>, i: nat)
    requires RecordedRun(db0, hs, steps) && Apart(owner, hs, steps) && i < |hs|
    ensures Serialised(owner, db0, hs[i])
  {
    if i > 0 {
      RunIsSerialised(owner, db0, hs, steps, i - 1);
      assert Recorded(hs, steps, i - 1);
      SerialisedNext(owner, db0, hs[i - 1], steps[i - 1]);
    }
  }

  lemma {:induction false} RunSnapshots(owner: Owner, db0: Db, hs: seq<History>, steps: seq<Step>, i: nat)
    requires RecordedRun(db0, hs, steps) && Apart(owner, hs, steps) && i < |hs|
    ensures SnapshotsArePrefixes(db0, hs[i])
  {
    if i > 0 {
      RunSnapshots(owner, db0, hs, steps, i - 1);
      RunIsSerialised(owner, db0, hs, steps, i - 1);
      assert Recorded(hs, steps, i - 1);
      PrefixesNext(db0, hs[i - 1], steps[i - 1]);
    }
  }

  /** In every interleaving with disjoint footprints, replaying the committed update transactions
      one after another, for each update key in the order they took its mutex, gives every one of
      them the reads it had and leaves the committed data. */
  lemma Serialisable(owner: Owner, db0: Db, hs: seq<History>, steps: seq<Step>, i: nat)
    requires RecordedRun(db0, hs, steps) && Apart(owner, hs, steps) && i < |hs|
    ensures SerialRun(db0, hs[i].commits) == Some(hs[i].s.db)
    ensures InLockOrder(hs[i].commits)
  {
    RunIsSerialised(owner, db0, hs, steps, i);
    RunInLockOrder(db0, hs, steps, i);
  }

  /** An update transaction still running has seen what it would see if it ran now, alone. */
  lemma RunningReadsAreCurrent(owner: Owner, db0: Db, hs: seq<History>, steps: seq<Step>, i: nat, t: TxId, u: UpdateKey)
    requires RecordedRun(db0, hs, steps) && Apart(owner, hs, steps) && i < |hs| && Running(hs[i].s, t, u)
    ensures Replay(hs[i].s.db, LogOf(hs[i], t)) == Some(Overlay(hs[i].s.db, hs[i].s.txs[t].buffer))
  {
    RunIsSerialised(owner, db0, hs, steps, i);
    CommitReplays(owner, hs[i], t, u);
  }

  /** Every transaction, read transactions included, has seen its own writes over the data left by
      the first `j` commits, for one `j`. */
  lemma ReadsFromOnePrefix(owner: Owner, db0: Db, hs: seq<History>, steps: seq<Step>, i: nat, t: TxId)
    requires RecordedRun(db0, hs, steps) && Apart(owner, hs, steps) && i < |hs| && t in hs[i].s.txs
    ensures exists j, d :: && 0 <= j <= |hs[i].commits| && SerialRun(db0, hs[i].commits[..j]) == Some(d)
                           && Replay(d, LogOf(hs[i], t)).Some?
  {
    RunIsSerialised(owner, db0, hs, steps, i);
    RunSnapshots(owner, db0, hs, steps, i);
    var h := hs[i];
    assert TxOk(h, t) && SnapshotIsPrefix(db0, h.commits, h.s.txs[t].snapshot);
    var j :| 0 <= j <= |h.commits| && SerialRun(db0, h.commits[..j]) == Some(h.s.txs[t].snapshot);
  }

  // ---------------------------------------------------------------------------------------
  // One update key at a time

  function Only(commits: seq<Commit>, u: UpdateKey): seq<Commit> {
    if |commits| == 0 then []
    else
      var rest, c := Only(commits[..|commits| - 1], u), commits[|commits| - 1];
      if c.key == u then rest + [c] else rest
  }

  lemma {:induction false} WritesWithin(owner: Owner, log: seq<Op>, u: UpdateKey)
    requires Within(owner, log, u)
    ensures forall k :: k in Writes(log) ==> owner(k) == Some(u)
  {
    if |log| > 0 { WritesWithin(owner, log[..|log| - 1], u); }
  }

  /** The data and reads of an update key depend on its own commits alone. */
  lemma {:induction false} SerialPerKey(owner: Owner, db0: Db, commits: seq<Commit>, u: UpdateKey) returns (own: Db)
    requires CommitsWithin(owner, commits) && SerialRun(db0, commits).Some?
    ensures SerialRun(db0, Only(commits, u)) == Some(own)
    ensures forall k :: owner(k) == Some(u) ==> Lookup(own, k) == Lookup(SerialRun(db0, commits).value, k)
  {
    if |commits| == 0 {
      own := db0;
    } else {
      var rest, c := commits[..|commits| - 1], commits[|commits| - 1];
      var before := SerialPerKey(owner, db0, rest, u);
      var d := SerialRun(db0, rest).value;
      assert Within(owner, c.log, c.key);
      WritesWithin(owner, c.log, c.key);
      if c.key == u {
        ReplayElsewhere(d, before, c.log);
        SerialRunExtend(db0, Only(rest, u), c);
        own := Overlay(before, Writes(c.log));
      } else {
        ReplayElsewhere(d, d, c.log);
        own := before;
      }
    }
  }

  lemma SerialisablePerKey(owner: Owner, db0: Db, hs: seq<History>, steps: seq<Step>, i: nat, u: UpdateKey)
    requires RecordedRun(db0, hs, steps) && Apart(owner, hs, steps) && i < |hs|
    ensures SerialRun(db0, Only(hs[i].commits, u)).Some?
    ensures forall k :: owner(k) == Some(u) ==>
              Lookup(SerialRun(db0, Only(hs[i].commits, u)).value, k) == Lookup(hs[i].s.db, k)
  {
    RunIsSerialised(owner, db0, hs, steps, i);
    var own := SerialPerKey(owner, db0, hs[i].commits, u);
  }
}
