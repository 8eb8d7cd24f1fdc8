/**
 `RocksDBStore` itself: the fields its methods update in place, and each method proved to be the
 step of the same name. The mutex guards and the handles given out are not fields of the store;
 they are tracked as ghost state.
 */
module RocksDbStore {
  import opened Types
  import opened RocksDb

  /** A handle as the caller holds it; a prepared update handle holds its mutex. */
  datatype RocksDBTx = RocksDBTx(id: TxId, updateKey: Option<UpdateKey>, mutex: Option<MutexId>, prepared: bool) {
    predicate IsUpdateTx() { updateKey.Some? }

    function AsHandle(): Handle { Handle(updateKey, mutex, prepared) }
  }

  class RocksDBStore {
    const readOnly: bool
    var db: Db
    var latestTxId: U64
    var txs: map<TxId, StoreTx>
    var mutex: map<UpdateKey, MutexId>
    var mutexes: map<MutexId, Mutex>
    var nextMutex: MutexId
    ghost var locked: map<MutexId, TxId>
    ghost var handles: map<TxId, Handle>
    ghost var begun: set<TxId>      // the handles `Begin` was called with

    ghost function Model(): State
      reads this
    {
      State(readOnly, db, txs, Locks(latestTxId, mutex, mutexes, locked, handles, nextMutex))
    }

    ghost predicate Valid()
      reads this
    {
      && Inv(Model())
      && (forall t :: t in begun ==> t <= latestTxId)
      && (forall t :: t in handles ==> (t in begun <==> t in txs))
    }

    ghost predicate Live(tx: RocksDBTx)
      reads this
    {
      tx.id in handles && handles[tx.id] == tx.AsHandle()
    }

    constructor (db: Db, readOnly: bool)
      ensures Valid() && Model() == Init(db, readOnly)
    {
      this.readOnly := readOnly;
      this.db, latestTxId, txs := db, 0, map[];
      mutex, mutexes, nextMutex := map[], map[], 0;
      locked, handles, begun := map[], map[], {};
    }

    method CreateTransaction(updateKey: Option<UpdateKey>) returns (r: Option<RocksDBTx>)
      requires Valid()
      modifies this
      ensures Valid() && Model() == Create(old(Model()), updateKey).0 && begun == old(begun)
      ensures r.Some? == Create(old(Model()), updateKey).1
      ensures r.Some? ==> Live(r.value) && r.value.id == latestTxId > old(latestTxId) && !r.value.prepared
      ensures r.Some? ==> r.value.updateKey == if readOnly then None else updateKey
    {
      CreateInv(Model(), updateKey);
      CreateTxInv(Model(), updateKey);
      r := CreateHandle(updateKey);
    }

    method CreateHandle(updateKey: Option<UpdateKey>) returns (r: Option<RocksDBTx>)
      modifies this`latestTxId, this`mutex, this`mutexes, this`nextMutex, this`handles
      ensures Model() == Create(old(Model()), updateKey).0
      ensures r.Some? == Create(old(Model()), updateKey).1
      ensures r.Some? ==> Live(r.value) && r.value.id == latestTxId > old(latestTxId) && !r.value.prepared
      ensures r.Some? ==> r.value.updateKey == if readOnly then None else updateKey
    {
      if latestTxId + 1 == 0x1_0000_0000_0000_0000 { return None; }
      if readOnly || updateKey.None? {
        latestTxId := latestTxId + 1;
        r := Some(NewTx(None, None));
      } else if updateKey.value == "" {
        latestTxId := latestTxId + 1;
        r := None;
      } else {
        var m := MutexFor(updateKey.value);
        latestTxId := latestTxId + 1;
        mutexes := AddRef(mutexes, m, 1);
        r := Some(NewTx(updateKey, Some(m)));
      }
      handles := if r.Some? then handles[latestTxId := r.value.AsHandle()] else handles;
    }

    function NewTx(updateKey: Option<UpdateKey>, m: Option<MutexId>): RocksDBTx
      reads this`latestTxId
    {
      RocksDBTx(latestTxId, updateKey, m, false)
    }

    /** The mutex of the update key; made and entered in the table if it is not there. */
    method MutexFor(key: UpdateKey) returns (m: MutexId)
      modifies this`mutex, this`mutexes, this`nextMutex
      ensures Model().locks == EnsureMutex(old(Model()).locks, key) && key in mutex && m == mutex[key]
    {
      if key !in mutex {
        mutex, mutexes, nextMutex := mutex[key := nextMutex], mutexes[nextMutex := Mutex(key, 1)], nextMutex + 1;
      }
      m := mutex[key];
    }

    /** `prepare`, once the mutex is free. */
    method Prepare(tx: RocksDBTx) returns (r: RocksDBTx)
      requires Valid() && Live(tx) && !tx.prepared
      requires tx.mutex.Some? ==> tx.mutex.value !in locked
      modifies this`handles, this`locked
      ensures Valid() && Next(old(Model()), PrepareStep(tx.id)) == Some(Model())
      ensures r == tx.(prepared := true) && Live(r)
    {
      InvNext(Model(), PrepareStep(tx.id));
      r := tx.(prepared := true);
      if tx.mutex.Some? { locked := locked[tx.mutex.value := tx.id]; }
      handles := handles[tx.id := r.AsHandle()];
    }

    method Begin(tx: RocksDBTx)
      requires Valid() && Live(tx) && tx.prepared
      modifies this`txs, this`begun
      ensures Valid() && Next(old(Model()), BeginStep(tx.id)) == Some(Model())
      ensures begun == old(begun) + {tx.id}
    {
      InvNext(Model(), BeginStep(tx.id));
      var stx;
      if readOnly {
        stx := StoreTx(SnapshotTx, db, map[]);
      } else if tx.IsUpdateTx() {
        stx := StoreTx(UpdateTx, db, map[]);
      } else {
        stx := StoreTx(ReadTx, db, map[]);
      }
      txs := txs[tx.id := stx];
      begun := begun + {tx.id};
    }

    /** `tx_get`; `None` for an unknown transaction. */
    method TxGet(t: TxId, k: string) returns (r: Option<Option<Bytes>>)
      ensures r == RocksDb.TxGet(Model(), t, k)
    {
      if t !in txs { return None; }
      var stx := txs[t];
      if k in stx.buffer {
        r := Some(stx.buffer[k]);
      } else {
        r := Some(Lookup(stx.snapshot, k));
      }
    }

    /** `tx_set` with a value and `tx_remove` without; false for an unknown transaction. */
    method TxPut(t: TxId, k: string, v: Option<Bytes>) returns (ok: bool)
      requires Valid()
      modifies this`txs
      ensures Valid() && ok == (t in old(txs))
      ensures ok ==> Next(old(Model()), PutStep(t, k, v)) == Some(Model())
      ensures !ok ==> Model() == old(Model())
    {
      ok := t in txs;
      if ok {
        InvNext(Model(), PutStep(t, k, v));
        txs := txs[t := txs[t].(buffer := txs[t].buffer[k := v])];
      }
    }

    /** `finalize_tx` for commit and rollback. The table entry is always there; the transaction is, unless
        the handle was never begun, in which case the call panics under the store's lock. */
    method Finalize(tx: RocksDBTx, commit: bool) returns (panicked: bool)
      requires Valid() && Live(tx) && tx.prepared
      modifies this
      ensures panicked <==> tx.id !in old(begun)
      ensures RocksDb.Finalize(old(Model()), tx.id, commit) == if panicked then TxNotFound else Done(Model())
      ensures !panicked ==> Valid() && begun == old(begun)
    {
      assert tx.IsUpdateTx() ==> tx.updateKey.value in mutex && mutex[tx.updateKey.value] in mutexes;
      if tx.id in txs { FinishInv(Model(), tx.id, commit); }
      panicked := Release(tx, commit);
    }

    method Release(tx: RocksDBTx, commit: bool) returns (panicked: bool)
      requires Live(tx) && tx.prepared
      requires tx.IsUpdateTx() ==> tx.updateKey.value in mutex && mutex[tx.updateKey.value] in mutexes
      modifies this`db, this`txs, this`mutex, this`mutexes, this`locked, this`handles
      ensures panicked <==> tx.id !in old(txs)
      ensures !panicked ==> Finish(old(Model()), tx.id, commit) == Some(Model())
    {
      if tx.IsUpdateTx() { Collect(tx.updateKey.value); }
      if tx.id !in txs { return true; }
      var stx := txs[tx.id];
      txs := txs - {tx.id};
      if commit && stx.kind == UpdateTx { db := Overlay(db, stx.buffer); }
      Drop(tx);
      return false;
    }

    /** Removes the table entry if only it and one handle refer to the mutex. */
    method Collect(key: UpdateKey)
      requires key in mutex && mutex[key] in mutexes
      modifies this`mutex, this`mutexes
      ensures Model().locks == CollectMutex(old(Model()).locks, key)
    {
      var v := mutex[key];
      if mutexes[v].count == 2 {
        mutex := mutex - {key};
        mutexes := AddRef(mutexes, v, -1);
      }
    }

    /** The handle goes out of scope. */
    method Drop(tx: RocksDBTx)
      requires Live(tx)
      modifies this`handles, this`locked, this`mutexes
      ensures Model().locks == DropHandle(old(Model()).locks, tx.id)
    {
      if tx.mutex.Some? {
        if tx.prepared { locked := locked - {tx.mutex.value}; }
        mutexes := AddRef(mutexes, tx.mutex.value, -1);
      }
      handles := handles - {tx.id};
    }
  }
}
