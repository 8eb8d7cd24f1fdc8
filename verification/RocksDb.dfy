/**
 The transactional host store as a step system. Handles, the mutex table with its reference
 counts, the running transactions and the committed data form one state; every call made under
 the store's write lock is one step, and so is taking a mutex outside that lock.
 */
module RocksDb {
  import opened Types

  type UpdateKey = string
  type TxId = U64
  type MutexId = nat
  type Db = map<string, Bytes>

  /** Buffered writes; `None` marks a removal. */
  type Buffer = map<string, Option<Bytes>>

  function Lookup(db: Db, k: string): Option<Bytes> { if k in db then Some(db[k]) else None }

  /** A read through a buffer over a snapshot. */
  function Read(db: Db, buf: Buffer, k: string): Option<Bytes> { if k in buf then buf[k] else Lookup(db, k) }

  /** The data after all buffered writes. */
  function Overlay(db: Db, buf: Buffer): (r: Db)
    ensures forall k :: Lookup(r, k) == Read(db, buf, k)
  {
    var kept := map k | k in db && k !in buf :: db[k];
    var added := map k | k in buf && buf[k].Some? :: buf[k].value;
    kept + added
  }

  // ---------------------------------------------------------------------------------------
  // Handles and mutexes

  /** A mutex: the update key it was made for, and its strong count. */
  datatype Mutex = Mutex(owner: UpdateKey, count: nat)

  /** A transaction handle, created or prepared; a prepared update handle holds its mutex. */
  datatype Handle = Handle(key: Option<UpdateKey>, mutex: Option<MutexId>, prepared: bool)

  datatype Locks = Locks(
    latest: U64,                    // the id given out last
    table: map<UpdateKey, MutexId>,
    mutexes: map<MutexId, Mutex>,   // the live mutexes
    locked: map<MutexId, TxId>,     // who holds which mutex
    handles: map<TxId, Handle>,     // the live handles
    nextMutex: MutexId)

  const NO_LOCKS := Locks(0, map[], map[], map[], map[], 0)

  /** Cloning (`change == 1`) or dropping (`change == -1`) a reference; the last one frees the mutex. */
  function AddRef(mutexes: map<MutexId, Mutex>, m: MutexId, change: int): map<MutexId, Mutex> {
    if m !in mutexes then mutexes
    else if mutexes[m].count + change <= 0 then mutexes - {m}
    else mutexes[m := mutexes[m].(count := mutexes[m].count + change)]
  }

  /** A mutex for the update key, made now if the table has none. */
  function EnsureMutex(l: Locks, key: UpdateKey): (r: Locks)
    ensures key in r.table && r.latest == l.latest && r.handles == l.handles
  {
    if key in l.table then l
    else l.(table := l.table[key := l.nextMutex],
            mutexes := l.mutexes[l.nextMutex := Mutex(key, 1)], nextMutex := l.nextMutex + 1)
  }

  predicate CanAddHandle(l: Locks, key: Option<UpdateKey>) {
    l.latest + 1 < 0x1_0000_0000_0000_0000 && (key.Some? ==> key.value in l.table)
  }

  /** A new handle with the next id; an update handle clones the reference to its mutex. */
  function AddHandle(l: Locks, key: Option<UpdateKey>): Locks
    requires CanAddHandle(l, key)
  {
    var t, mutex := l.latest + 1, if key.Some? then Some(l.table[key.value]) else None;
    l.(latest := t,
       handles := l.handles[t := Handle(key, mutex, false)],
       mutexes := if mutex.Some? then AddRef(l.mutexes, mutex.value, 1) else l.mutexes)
  }

  /** `prepare`: an update handle waits until its mutex is free. */
  function Prepare(l: Locks, t: TxId): Option<Locks> {
    if t !in l.handles || l.handles[t].prepared then None
    else
      var h := l.handles[t];
      if h.mutex.Some? && h.mutex.value in l.locked then None
      else Some(l.(handles := l.handles[t := h.(prepared := true)],
                   locked := if h.mutex.Some? then l.locked[h.mutex.value := t] else l.locked))
  }

  /** A handle goes out of scope: its mutex guard and its reference are released. */
  function DropHandle(l: Locks, t: TxId): Locks
    requires t in l.handles
  {
    var h := l.handles[t];
    l.(handles := l.handles - {t},
       locked := if h.mutex.Some? && h.prepared then l.locked - {h.mutex.value} else l.locked,
       mutexes := if h.mutex.Some? then AddRef(l.mutexes, h.mutex.value, -1) else l.mutexes)
  }

  /** The entry of the mutex table goes when only the table and one handle hold the mutex. */
  function CollectMutex(l: Locks, key: UpdateKey): Locks
    requires key in l.table
  {
    var m := l.table[key];
    if m in l.mutexes && l.mutexes[m].count == 2
    then l.(table := l.table - {key}, mutexes := AddRef(l.mutexes, m, -1)) else l
  }

  /** What finalising a transaction does to its handle and mutex. */
  function ReleaseHandle(l: Locks, t: TxId): Locks
    requires t in l.handles && (l.handles[t].key.Some? ==> l.handles[t].key.value in l.table)
  {
    DropHandle(if l.handles[t].key.Some? then CollectMutex(l, l.handles[t].key.value) else l, t)
  }

  // ---------------------------------------------------------------------------------------
  // The store

  datatype Kind = ReadTx | UpdateTx | SnapshotTx

  /** A begun transaction: its kind, the snapshot taken at begin, and its own writes. */
  datatype StoreTx = StoreTx(kind: Kind, snapshot: Db, buffer: Buffer)

  datatype State = State(readOnly: bool, db: Db, txs: map<TxId, StoreTx>, locks: Locks)

  function Init(db: Db, readOnly: bool): State { State(readOnly, db, map[], NO_LOCKS) }

  /** `create_transaction`; the flag tells whether a handle, numbered `latest`, was returned. */
  function Create(s: State, key: Option<UpdateKey>): (State, bool) {
    var l := s.locks;
    if l.latest + 1 == 0x1_0000_0000_0000_0000 then (s, false)
    else if s.readOnly || key.None? then (s.(locks := AddHandle(l, None)), true)
    else if key.value == "" then (s.(locks := l.(latest := l.latest + 1)), false)
    else (s.(locks := AddHandle(EnsureMutex(l, key.value), key)), true)
  }

  /** Creating fails exactly if the ids are used up or, in a writable store, the update key is empty. Every call
      but one for want of ids uses up an id. The new handle is unprepared and the others stay as they are. */
  lemma CreateExact(s: State, key: Option<UpdateKey>)
    ensures var (s', ok) := Create(s, key);
            var left, t := s.locks.latest < 0xFFFF_FFFF_FFFF_FFFF, s.locks.latest + 1;
            && (ok <==> left && (s.readOnly || key != Some("")))
            && s'.locks.latest == (if left then t else s.locks.latest)
            && s'.db == s.db && s'.txs == s.txs
            && (ok ==> t in s'.locks.handles && !s'.locks.handles[t].prepared
                       && s'.locks.handles[t].key == if s.readOnly then None else key)
            && s'.locks.handles - {t} == s.locks.handles - {t} && (!ok ==> s'.locks.handles == s.locks.handles)
  {
  }

  /** `begin`: a new snapshot; beginning again starts the transaction over. */
  function Begin(s: State, t: TxId): Option<State> {
    if t !in s.locks.handles || !s.locks.handles[t].prepared then None
    else
      var kind := if s.readOnly then SnapshotTx else if s.locks.handles[t].key.Some? then UpdateTx else ReadTx;
      Some(s.(txs := s.txs[t := StoreTx(kind, s.db, map[])]))
  }

  /** `tx_get`, `None` for an unknown transaction. */
  function TxGet(s: State, t: TxId, k: string): Option<Option<Bytes>> {
    if t in s.txs then Some(Read(s.txs[t].snapshot, s.txs[t].buffer, k)) else None
  }

  /** `tx_set` and `tx_remove`. */
  function TxPut(s: State, t: TxId, k: string, v: Option<Bytes>): Option<State> {
    if t !in s.txs then None
    else Some(s.(txs := s.txs[t := s.txs[t].(buffer := s.txs[t].buffer[k := v])]))
  }

  datatype Outcome = Done(state: State) | InvariantViolation | TxNotFound

  /** `finalize_tx`, for commit and rollback; consumes the handle. */
  function Finalize(s: State, t: TxId, commit: bool): Outcome
    requires t in s.locks.handles
  {
    var h := s.locks.handles[t];
    if h.key.Some? && h.key.value !in s.locks.table then InvariantViolation
    else if t !in s.txs then TxNotFound
    else
      var x := s.txs[t];
      Done(s.(txs := s.txs - {t},
              db := if commit && x.kind == UpdateTx then Overlay(s.db, x.buffer) else s.db,
              locks := ReleaseHandle(s.locks, t)))
  }

  datatype Step =
    | CreateStep(key: Option<UpdateKey>)
    | PrepareStep(t: TxId)
    | BeginStep(t: TxId)
    | GetStep(t: TxId, k: string)
    | PutStep(t: TxId, k: string, v: Option<Bytes>)
    | CommitStep(t: TxId)
    | RollbackStep(t: TxId)
    | DropStep(t: TxId)

  /** The state after a step, if the step can happen; only prepared handles are finalised. */
  function Next(s: State, step: Step): Option<State> {
    match step
    case CreateStep(key) => Some(Create(s, key).0)
    case PrepareStep(t) => (match Prepare(s.locks, t) case None => None case Some(l) => Some(s.(locks := l)))
    case BeginStep(t) => Begin(s, t)
    case GetStep(t, k) => if TxGet(s, t, k).Some? then Some(s) else None
    case PutStep(t, k, v) => TxPut(s, t, k, v)
    case CommitStep(t) => Finish(s, t, true)
    case RollbackStep(t) => Finish(s, t, false)
    case DropStep(t) => if t in s.locks.handles then Some(s.(locks := DropHandle(s.locks, t))) else None
  }

  function Finish(s: State, t: TxId, commit: bool): Option<State> {
    if t in s.locks.handles && s.locks.handles[t].prepared && Finalize(s, t, commit).Done?
    then Some(Finalize(s, t, commit).state) else None
  }

  // ---------------------------------------------------------------------------------------
  // The invariant

  ghost function Users(l: Locks, m: MutexId): set<TxId> {
    set t | t in l.handles && l.handles[t].mutex == Some(m)
  }

  /** The table, the live mutexes and the update handles agree on who uses which mutex. */
  ghost predicate TableOk(l: Locks) {
    && (forall k :: k in l.table ==> l.table[k] in l.mutexes && l.mutexes[l.table[k]].owner == k)
    && (forall m :: m in l.mutexes ==> l.mutexes[m].owner in l.table && l.table[l.mutexes[m].owner] == m)
    && (forall m :: m in l.mutexes ==> m < l.nextMutex)
  }

  ghost predicate HandlesOk(l: Locks) {
    forall t :: t in l.handles ==>
      var h := l.handles[t];
      && t <= l.latest
      && h.key.Some? == h.mutex.Some?
      && (h.key.Some? ==> h.mutex.value in l.mutexes && l.mutexes[h.mutex.value].owner == h.key.value)
  }

  /** Every mutex is held once by the table and once by each of its handles. */
  ghost predicate CountsOk(l: Locks) {
    forall m :: m in l.mutexes ==> l.mutexes[m].count == 1 + |Users(l, m)|
  }

  /** Exactly the prepared update handles hold their mutex. */
  ghost predicate LocksOk(l: Locks) {
    && (forall m :: m in l.locked ==> l.locked[m] in l.handles)
    && (forall m :: m in l.locked ==> l.handles[l.locked[m]].mutex == Some(m) && l.handles[l.locked[m]].prepared)
    && (forall t :: t in l.handles && l.handles[t].prepared && l.handles[t].mutex.Some? ==>
          l.handles[t].mutex.value in l.locked && l.locked[l.handles[t].mutex.value] == t)
  }

  ghost predicate LockInv(l: Locks) { TableOk(l) && HandlesOk(l) && CountsOk(l) && LocksOk(l) }

  /** Running transactions have given-out ids; those with a live handle are prepared and of its kind. */
  ghost predicate TxInv(s: State) {
    && (forall t :: t in s.txs ==> t <= s.locks.latest)
    && (forall t :: t in s.txs && t in s.locks.handles ==>
          s.locks.handles[t].prepared && (s.txs[t].kind == UpdateTx <==> s.locks.handles[t].key.Some?))
    && (s.readOnly ==> forall t :: t in s.locks.handles ==> s.locks.handles[t].key.None?)
  }

  ghost predicate Inv(s: State) { LockInv(s.locks) && TxInv(s) }

  // ---------------------------------------------------------------------------------------
  // Every step keeps it

  lemma EnsureMutexCounts(l: Locks, key: UpdateKey)
    requires HandlesOk(l) && CountsOk(l) && TableOk(l)
    ensures CountsOk(EnsureMutex(l, key))
  {
    var r := EnsureMutex(l, key);
    forall m | m in r.mutexes ensures Users(r, m) == Users(l, m) && (m !in l.mutexes ==> Users(l, m) == {}) { }
  }

  lemma EnsureMutexInv(l: Locks, key: UpdateKey)
    requires LockInv(l)
    ensures LockInv(EnsureMutex(l, key))
  {
    EnsureMutexCounts(l, key);
    EnsureMutexTable(l, key);
    assert LocksOk(EnsureMutex(l, key)) by { assert EnsureMutex(l, key).locked == l.locked; }
  }

  lemma EnsureMutexTable(l: Locks, key: UpdateKey)
    requires TableOk(l) && HandlesOk(l)
    ensures TableOk(EnsureMutex(l, key)) && HandlesOk(EnsureMutex(l, key))
  {
  }

  lemma AddHandleUsers(l: Locks, key: Option<UpdateKey>, m: MutexId)
    requires HandlesOk(l) && CanAddHandle(l, key)
    ensures var t := l.latest + 1;
            && t !in Users(l, m)
            && Users(AddHandle(l, key), m)
            == if key.Some? && l.table[key.value] == m then Users(l, m) + {t} else Users(l, m)
  {
  }

  lemma AddHandleCounts(l: Locks, key: Option<UpdateKey>)
    requires HandlesOk(l) && CountsOk(l) && CanAddHandle(l, key)
    ensures CountsOk(AddHandle(l, key))
  {
    var r := AddHandle(l, key);
    forall m | m in r.mutexes ensures r.mutexes[m].count == 1 + |Users(r, m)| { AddHandleUsers(l, key, m); }
  }

  lemma AddHandleInv(l: Locks, key: Option<UpdateKey>)
    requires LockInv(l) && CanAddHandle(l, key)
    ensures LockInv(AddHandle(l, key))
  {
    AddHandleCounts(l, key);
    AddHandleTable(l, key);
    AddHandleLocks(l, key);
  }

  lemma AddHandleLocks(l: Locks, key: Option<UpdateKey>)
    requires LocksOk(l) && HandlesOk(l) && CanAddHandle(l, key)
    ensures LocksOk(AddHandle(l, key))
  {
    assert l.latest + 1 !in l.handles;
  }

  lemma AddHandleTable(l: Locks, key: Option<UpdateKey>)
    requires TableOk(l) && HandlesOk(l) && CanAddHandle(l, key)
    ensures TableOk(AddHandle(l, key)) && HandlesOk(AddHandle(l, key))
  {
  }

  lemma PrepareInv(l: Locks, t: TxId)
    requires LockInv(l) && Prepare(l, t).Some?
    ensures LockInv(Prepare(l, t).value)
  {
    PrepareCounts(l, t);
    PrepareLocks(l, t);
  }

  lemma PrepareCounts(l: Locks, t: TxId)
    requires CountsOk(l) && Prepare(l, t).Some?
    ensures CountsOk(Prepare(l, t).value)
  {
    var r := Prepare(l, t).value;
    forall m | m in r.mutexes ensures Users(r, m) == Users(l, m) { }
  }

  lemma PrepareLocks(l: Locks, t: TxId)
    requires LocksOk(l) && Prepare(l, t).Some?
    ensures LocksOk(Prepare(l, t).value)
  {
  }

  lemma DropUsers(l: Locks, t: TxId)
    requires t in l.handles
    ensures forall m :: Users(DropHandle(l, t), m) == Users(l, m) - {t}
    ensures l.handles[t].mutex.Some? ==> t in Users(l, l.handles[t].mutex.value)
  {
  }

  lemma DropCounts(l: Locks, t: TxId)
    requires HandlesOk(l) && CountsOk(l) && t in l.handles
    ensures CountsOk(DropHandle(l, t))
  {
    var r := DropHandle(l, t);
    DropUsers(l, t);
    forall m | m in r.mutexes ensures r.mutexes[m].count == 1 + |Users(r, m)| {
      assert Users(r, m) == Users(l, m) - {t} && (t in Users(l, m) <==> l.handles[t].mutex == Some(m));
    }
  }

  lemma DropInv(l: Locks, t: TxId)
    requires LockInv(l) && t in l.handles
    ensures LockInv(DropHandle(l, t))
  {
    DropTable(l, t);
    DropCounts(l, t);
    DropLocks(l, t);
  }

  /** Only the last reference frees a mutex, and the table always holds one. */
  lemma DropTable(l: Locks, t: TxId)
    requires TableOk(l) && HandlesOk(l) && CountsOk(l) && t in l.handles
    ensures TableOk(DropHandle(l, t)) && HandlesOk(DropHandle(l, t))
  {
    if l.handles[t].mutex.Some? {
      var m := l.handles[t].mutex.value;
      assert t in Users(l, m);
      assert l.mutexes[m].count == 1 + |Users(l, m)|;
    }
  }

  lemma DropLocks(l: Locks, t: TxId)
    requires LocksOk(l) && t in l.handles
    ensures LocksOk(DropHandle(l, t))
  {
  }

  /** With a count of two the handle is the mutex's last user, and the mutex goes with its entry. */
  lemma LastUser(l: Locks, t: TxId)
    requires LockInv(l) && t in l.handles && l.handles[t].key.Some?
    requires l.mutexes[l.handles[t].mutex.value].count == 2
    ensures WithoutLast(l, t, ReleaseHandle(l, t))
  {
    var users := Users(l, l.handles[t].mutex.value);
    assert t in users && |users - {t}| == 0;
  }

  lemma ReleaseLastInv(l: Locks, t: TxId)
    requires LockInv(l) && t in l.handles && l.handles[t].key.Some?
    requires l.mutexes[l.handles[t].mutex.value].count == 2
    ensures LockInv(ReleaseHandle(l, t))
  {
    LastUser(l, t);
    ReleaseLastTable(l, t, ReleaseHandle(l, t));
    ReleaseLastCounts(l, t, ReleaseHandle(l, t));
    ReleaseLastLocks(l, t, ReleaseHandle(l, t));
  }

  ghost predicate WithoutLast(l: Locks, t: TxId, r: Locks)
    requires t in l.handles && l.handles[t].key.Some? && l.handles[t].mutex.Some?
  {
    var h := l.handles[t];
    && Users(l, h.mutex.value) == {t}
    && r == l.(handles := l.handles - {t}, table := l.table - {h.key.value}, mutexes := l.mutexes - {h.mutex.value},
               locked := if h.prepared then l.locked - {h.mutex.value} else l.locked)
  }

  lemma ReleaseLastTable(l: Locks, t: TxId, r: Locks)
    requires TableOk(l) && HandlesOk(l) && t in l.handles && l.handles[t].key.Some? && WithoutLast(l, t, r)
    ensures TableOk(r) && HandlesOk(r)
  {
    assert forall u :: u in r.handles ==> u !in Users(l, l.handles[t].mutex.value);
  }

  lemma ReleaseLastCounts(l: Locks, t: TxId, r: Locks)
    requires HandlesOk(l) && CountsOk(l) && t in l.handles && l.handles[t].key.Some? && WithoutLast(l, t, r)
    ensures CountsOk(r)
  {
    forall n | n in r.mutexes ensures r.mutexes[n].count == 1 + |Users(r, n)| {
      assert Users(r, n) == Users(l, n);
    }
  }

  lemma ReleaseLastLocks(l: Locks, t: TxId, r: Locks)
    requires HandlesOk(l) && LocksOk(l) && t in l.handles && l.handles[t].key.Some? && WithoutLast(l, t, r)
    ensures LocksOk(r)
  {
    DropLocks(l, t);
    assert r.locked == DropHandle(l, t).locked && r.handles == DropHandle(l, t).handles;
  }

  lemma ReleaseInv(l: Locks, t: TxId)
    requires LockInv(l) && t in l.handles
    ensures l.handles[t].key.Some? ==> l.handles[t].key.value in l.table
    ensures LockInv(ReleaseHandle(l, t))
  {
    if l.handles[t].key.Some? && l.mutexes[l.handles[t].mutex.value].count == 2 {
      ReleaseLastInv(l, t);
    } else {
      DropInv(l, t);
    }
  }

  lemma CreateInv(s: State, key: Option<UpdateKey>)
    requires Inv(s)
    ensures LockInv(Create(s, key).0.locks)
  {
    var l := s.locks;
    if l.latest + 1 < 0x1_0000_0000_0000_0000 {
      if s.readOnly || key.None? {
        AddHandleInv(l, None);
      } else if key.value == "" {
        var r := l.(latest := l.latest + 1);
        assert forall m :: Users(r, m) == Users(l, m);
      } else {
        EnsureMutexInv(l, key.value);
        AddHandleInv(EnsureMutex(l, key.value), key);
      }
    }
  }

  lemma CreateTxInv(s: State, key: Option<UpdateKey>)
    requires Inv(s)
    ensures TxInv(Create(s, key).0)
  {
  }

  lemma BeginInv(s: State, t: TxId)
    requires Inv(s) && Begin(s, t).Some?
    ensures Inv(Begin(s, t).value)
  {
  }

  lemma FinishInv(s: State, t: TxId, commit: bool)
    requires Inv(s) && Finish(s, t, commit).Some?
    ensures Inv(Finish(s, t, commit).value)
  {
    ReleaseInv(s.locks, t);
  }

  /** Every step that can happen keeps the invariant. */
  lemma InvNext(s: State, step: Step)
    requires Inv(s) && Next(s, step).Some?
    ensures Inv(Next(s, step).value)
  {
    match step
    case CreateStep(key) => CreateInv(s, key); CreateTxInv(s, key);
    case PrepareStep(t) => PrepareInv(s.locks, t);
    case BeginStep(t) => BeginInv(s, t);
    case GetStep(_, _) =>
    case PutStep(_, _, _) =>
    case CommitStep(t) => FinishInv(s, t, true);
    case RollbackStep(t) => FinishInv(s, t, false);
    case DropStep(t) => DropInv(s.locks, t);
  }
}
