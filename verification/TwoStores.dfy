/**
 Two stores, one meaning: run one update transaction after another, and the in-memory store and the
 RocksDB store give the same answers and hold the same data.
 */
module TwoStores {
  import opened Types
  import opened RocksDb
  import Mem = MemStore

  /** An access through the running transaction; a write without a value removes. */
  datatype Access = Get(k: string) | Write(k: string, v: Option<Bytes>)

  /** One command's transaction: its update key, its accesses, and whether it commits. */
  datatype Script = Script(key: UpdateKey, accesses: seq<Access>, commit: bool)

  type Answers = seq<Option<Bytes>>

  // ---------------------------------------------------------------------------------------
  // The in-memory store

  function MemAccesses(m: Mem.Mem, accesses: seq<Access>): (r: (Mem.Mem, Answers)) {
    if |accesses| == 0 then (m, [])
    else
      var (m', outs) := MemAccesses(m, accesses[..|accesses| - 1]);
      match accesses[|accesses| - 1]
      case Get(k) => (m', outs + [Lookup(Mem.View(m'), k)])
      case Write(k, v) => (Mem.Write(m', k, v), outs)
  }

  /** `None` stands for a refused transaction. */
  function MemScript(m: Mem.Mem, script: Script): (Mem.Mem, Option<Answers>) {
    var (m1, ok) := Mem.NewTx(m);
    if !ok then (m1, None)
    else
      var (m2, outs) := MemAccesses(m1.(running := true), script.accesses);
      (Mem.EndTx(m2, script.commit), Some(outs))
  }

  // ---------------------------------------------------------------------------------------
  // The RocksDB store

  function RocksAccesses(s: State, t: TxId, accesses: seq<Access>): Option<(State, Answers)> {
    if |accesses| == 0 then Some((s, []))
    else match RocksAccesses(s, t, accesses[..|accesses| - 1])
      case None => None
      case Some((s', outs)) =>
        match accesses[|accesses| - 1]
        case Get(k) => (match TxGet(s', t, k) case None => None case Some(v) => Some((s', outs + [v])))
        case Write(k, v) => (match TxPut(s', t, k, v) case None => None case Some(s'') => Some((s'', outs)))
  }

  /** Create, prepare, begin, the accesses, then commit or roll back; `None` if a step is not possible. */
  function RocksScript(s: State, script: Script): Option<(State, Option<Answers>)> {
    var (s1, ok) := Create(s, Some(script.key));
    if !ok then Some((s1, None))
    else
      var t := s1.locks.latest;
      match Next(s1, PrepareStep(t))
      case None => None
      case Some(s2) =>
        match Begin(s2, t)
        case None => None
        case Some(s3) =>
          match RocksAccesses(s3, t, script.accesses)
          case None => None
          case Some((s4, outs)) =>
            match Finish(s4, t, script.commit)
            case None => None
            case Some(s5) => Some((s5, Some(outs)))
  }

  // ---------------------------------------------------------------------------------------

  /** Between transactions both stores hold the same data and give out the same ids. */
  ghost predicate Same(m: Mem.Mem, s: State) {
    && !m.running && m.overlay == map[]
    && Inv(s) && !s.readOnly && s.locks.handles == map[]
    && m.committed == s.db && m.latest == s.locks.latest
  }

  /** Inside the transaction `t` they hold the same data and the same writes. */
  ghost predicate SameInside(m: Mem.Mem, s: State, t: TxId) {
    && m.running && t in s.txs
    && s.txs[t] == StoreTx(UpdateTx, m.committed, m.overlay) && s.db == m.committed
  }

  lemma {:induction false} SameAccesses(m: Mem.Mem, s: State, t: TxId, accesses: seq<Access>)
    requires SameInside(m, s, t)
    ensures RocksAccesses(s, t, accesses).Some?
    ensures var (m', outs) := MemAccesses(m, accesses);
            var (s', outs') := RocksAccesses(s, t, accesses).value;
            && outs == outs' && SameInside(m', s', t) && m'.latest == m.latest && m'.committed == m.committed
            && s'.locks == s.locks && s'.readOnly == s.readOnly && s'.txs.Keys == s.txs.Keys
            && (forall u :: u in s.txs ==> s'.txs[u].kind == s.txs[u].kind)
  {
    if |accesses| > 0 { SameAccesses(m, s, t, accesses[..|accesses| - 1]); }
  }

  ghost predicate OnlyHandle(s: State, t: TxId, key: UpdateKey) {
    s.locks.handles.Keys == {t} && s.locks.handles[t].prepared && s.locks.handles[t].key == Some(key)
  }

  lemma CreatesOne(s: State, key: UpdateKey) returns (s1: State)
    requires Inv(s) && !s.readOnly && s.locks.handles == map[] && key != ""
    requires s.locks.latest + 1 < 0x1_0000_0000_0000_0000
    ensures Create(s, Some(key)) == (s1, true) && s1.locks.latest == s.locks.latest + 1
    ensures Inv(s1) && s1.locks.handles.Keys == {s1.locks.latest} && !s1.readOnly && s1.db == s.db
    ensures s1.locks.handles[s1.locks.latest].key == Some(key) && !s1.locks.handles[s1.locks.latest].prepared
  {
    s1 := Create(s, Some(key)).0;
    InvNext(s, CreateStep(Some(key)));
  }

  lemma NothingLocked(l: Locks, t: TxId)
    requires LocksOk(l) && l.handles.Keys == {t} && !l.handles[t].prepared
    ensures l.locked == map[]
  {
    assert forall m :: m !in l.locked.Keys;
  }

  /** Nobody holds a mutex, so nobody waits for one. */
  lemma PreparesOne(s: State, t: TxId, key: UpdateKey) returns (s': State)
    requires Inv(s) && s.locks.handles.Keys == {t}
    requires s.locks.handles[t].key == Some(key) && !s.locks.handles[t].prepared
    ensures Next(s, PrepareStep(t)) == Some(s') && Inv(s') && OnlyHandle(s', t, key)
    ensures s' == s.(locks := s'.locks) && s'.locks.latest == s.locks.latest
  {
    NothingLocked(s.locks, t);
    s' := Next(s, PrepareStep(t)).value;
    PrepareInv(s.locks, t);
  }

  lemma BeginsOne(s: State, t: TxId, key: UpdateKey) returns (s': State)
    requires Inv(s) && OnlyHandle(s, t, key) && !s.readOnly
    ensures Begin(s, t) == Some(s') && Inv(s') && s' == s.(txs := s'.txs)
    ensures t in s'.txs && s'.txs[t] == StoreTx(UpdateTx, s.db, map[])
  {
    s' := Begin(s, t).value;
    BeginInv(s, t);
  }

  /** Alone in the store, a transaction is created, prepared and begun without waiting. */
  lemma Starts(s: State, key: UpdateKey) returns (s1: State, s2: State, s3: State)
    requires Inv(s) && !s.readOnly && s.locks.handles == map[] && key != ""
    requires s.locks.latest + 1 < 0x1_0000_0000_0000_0000
    ensures Create(s, Some(key)) == (s1, true) && s1.locks.latest == s.locks.latest + 1
    ensures Next(s1, PrepareStep(s1.locks.latest)) == Some(s2) && Begin(s2, s1.locks.latest) == Some(s3)
    ensures Inv(s3) && OnlyHandle(s3, s1.locks.latest, key) && s3.db == s.db && !s3.readOnly
    ensures s3.locks.latest == s1.locks.latest
    ensures s1.locks.latest in s3.txs && s3.txs[s1.locks.latest] == StoreTx(UpdateTx, s.db, map[])
  {
    s1 := CreatesOne(s, key);
    s2 := PreparesOne(s1, s1.locks.latest, key);
    s3 := BeginsOne(s2, s1.locks.latest, key);
  }

  lemma Ends(s: State, t: TxId, key: UpdateKey, commit: bool) returns (s': State)
    requires Inv(s) && OnlyHandle(s, t, key) && t in s.txs && s.txs[t].kind == UpdateTx
    ensures Finish(s, t, commit) == Some(s') && Inv(s')
    ensures s'.locks.handles == map[] && s'.locks.latest == s.locks.latest && s'.readOnly == s.readOnly
    ensures s'.db == if commit then Overlay(s.db, s.txs[t].buffer) else s.db
  {
    s' := Finish(s, t, commit).value;
    FinishInv(s, t, commit);
    assert s'.locks.handles.Keys == {};
  }

  lemma InvAfterWrites(s: State, t: TxId, s': State)
    requires Inv(s) && t in s.txs && s'.locks == s.locks && s'.readOnly == s.readOnly && s'.txs.Keys == s.txs.Keys
    requires forall u :: u in s.txs ==> s'.txs[u].kind == s.txs[u].kind
    ensures Inv(s')
  {
  }

  lemma ScriptUnfolds(s: State, script: Script, s1: State, s2: State, s3: State, s4: State, outs: Answers, s5: State)
    requires Create(s, Some(script.key)) == (s1, true)
    requires Next(s1, PrepareStep(s1.locks.latest)) == Some(s2) && Begin(s2, s1.locks.latest) == Some(s3)
    requires RocksAccesses(s3, s1.locks.latest, script.accesses) == Some((s4, outs))
    requires Finish(s4, s1.locks.latest, script.commit) == Some(s5)
    ensures RocksScript(s, script) == Some((s5, Some(outs)))
  {
  }

  /** One transaction with a non-empty update key: same answers, same data afterwards. */
  lemma SameScript(m: Mem.Mem, s: State, script: Script)
    requires Same(m, s) && script.key != ""
    ensures RocksScript(s, script).Some?
    ensures MemScript(m, script).1 == RocksScript(s, script).value.1
    ensures Same(MemScript(m, script).0, RocksScript(s, script).value.0)
    ensures !script.commit ==> MemScript(m, script).0.committed == m.committed
  {
    if m.latest + 1 < 0x1_0000_0000_0000_0000 {
      var s1, s2, s3 := Starts(s, script.key);
      var t := s1.locks.latest;
      SameAccesses(Mem.NewTx(m).0.(running := true), s3, t, script.accesses);
      var (s4, outs) := RocksAccesses(s3, t, script.accesses).value;
      InvAfterWrites(s3, t, s4);
      var s5 := Ends(s4, t, script.key, script.commit);
      ScriptUnfolds(s, script, s1, s2, s3, s4, outs, s5);
    }
  }

  // ---------------------------------------------------------------------------------------
  // Whole scripts

  function MemRun(m: Mem.Mem, scripts: seq<Script>): (Mem.Mem, seq<Option<Answers>>) {
    if |scripts| == 0 then (m, [])
    else
      var (m', outs) := MemRun(m, scripts[..|scripts| - 1]);
      var (m'', out) := MemScript(m', scripts[|scripts| - 1]);
      (m'', outs + [out])
  }

  function RocksRun(s: State, scripts: seq<Script>): Option<(State, seq<Option<Answers>>)> {
    if |scripts| == 0 then Some((s, []))
    else match RocksRun(s, scripts[..|scripts| - 1])
      case None => None
      case Some((s', outs)) =>
        match RocksScript(s', scripts[|scripts| - 1])
        case None => None
        case Some((s'', out)) => Some((s'', outs + [out]))
  }

  /** From the same data, any sequence of update transactions gets the same answers from both stores
      and leaves the same data in both. */
  lemma {:induction false} SameRuns(db: Db, scripts: seq<Script>)
    requires forall i :: 0 <= i < |scripts| ==> scripts[i].key != ""
    ensures RocksRun(Init(db, false), scripts).Some?
    ensures var (m, outs) := MemRun(Mem.Mem(false, 0, map[], db), scripts);
            var (s, outs') := RocksRun(Init(db, false), scripts).value;
            outs == outs' && Same(m, s)
  {
    if |scripts| > 0 {
      SameRuns(db, scripts[..|scripts| - 1]);
      SameScript(MemRun(Mem.Mem(false, 0, map[], db), scripts[..|scripts| - 1]).0,
                 RocksRun(Init(db, false), scripts[..|scripts| - 1]).value.0, scripts[|scripts| - 1]);
    }
  }

  /** The condition is needed: only the in-memory store accepts an empty update key. */
  lemma EmptyKeyDiffers(m: Mem.Mem, s: State, script: Script)
    requires Same(m, s) && script.key == "" && m.latest + 1 < 0x1_0000_0000_0000_0000
    ensures RocksScript(s, script).Some? && RocksScript(s, script).value.1 == None
    ensures MemScript(m, script).1.Some?
  {
  }
}
