/** `InnerMemStore`: one running transaction at a time, its writes in an overlay. */
module MemStore {
  import opened Types
  import opened RocksDb
  import opened Serial

  datatype Mem = Mem(running: bool, latest: U64, overlay: Buffer, committed: Db)

  /** What a get answers: the overlay counts only while a transaction runs. */
  function View(m: Mem): Db { if m.running then Overlay(m.committed, m.overlay) else m.committed }

  function NewTx(m: Mem): (Mem, bool) {
    if m.latest + 1 == 0x1_0000_0000_0000_0000 then (m, false) else (m.(latest := m.latest + 1), true)
  }

  /** `set` with a value, `remove` without. */
  function Write(m: Mem, k: string, v: Option<Bytes>): Mem {
    if m.running then m.(overlay := m.overlay[k := v]) else m.(committed := Serial.Put(m.committed, k, v))
  }

  /** Ending the transaction keeps the view or goes back to the data from before it. */
  function EndTx(m: Mem, commit: bool): Mem {
    Mem(false, m.latest, map[], if commit then View(m) else m.committed)
  }

  class InnerMemStore {
    var runningTxExists: bool
    var latestTxId: U64
    var uncommittedData: Buffer
    var committedData: Db

    ghost function Model(): Mem
      reads this
    {
      Mem(runningTxExists, latestTxId, uncommittedData, committedData)
    }

    method Get(k: string) returns (v: Option<Bytes>)
      ensures v == Lookup(View(Model()), k)
    {
      if runningTxExists && k in uncommittedData {
        v := uncommittedData[k];
      } else {
        v := Lookup(committedData, k);
      }
    }

    /** `set` with a value, `remove` without. */
    method Put(k: string, v: Option<Bytes>)
      modifies this`uncommittedData, this`committedData
      ensures Model() == Write(old(Model()), k, v)
      ensures View(Model()) == Serial.Put(old(View(Model())), k, v)
    {
      if runningTxExists {
        OverlayPut(committedData, uncommittedData, k, v);
        uncommittedData := uncommittedData[k := v];
      } else {
        committedData := Serial.Put(committedData, k, v);
      }
    }

    /** `create_transaction`, whatever the update key. */
    method CreateTransaction() returns (id: Option<U64>)
      modifies this`latestTxId
      ensures (Model(), id.Some?) == NewTx(old(Model()))
      ensures id.Some? ==> id.value == latestTxId > old(latestTxId)
    {
      if latestTxId + 1 == 0x1_0000_0000_0000_0000 { return None; }
      latestTxId := latestTxId + 1;
      id := Some(latestTxId);
    }

    method Begin()
      requires !runningTxExists
      modifies this`runningTxExists
      ensures Model() == old(Model()).(running := true)
    {
      runningTxExists := true;
    }

    /** The loop of `commit` visits the overlay in an arbitrary order; the result is the view. */
    method Commit()
      requires runningTxExists
      modifies this
      ensures Model() == EndTx(old(Model()), true)
    {
      ghost var base := committedData;
      runningTxExists := false;
      var data := uncommittedData;
      uncommittedData := map[];
      var pending := data.Keys;
      ghost var done: Buffer := map[];
      OverlayNothing(base);
      while pending != {}
        invariant !runningTxExists && uncommittedData == map[] && latestTxId == old(latestTxId)
        invariant pending <= data.Keys && done.Keys == data.Keys - pending
        invariant forall k :: k in done ==> done[k] == data[k]
        invariant committedData == Overlay(base, done)
        decreases pending
      {
        var k :| k in pending;
        OverlayPut(base, done, k, data[k]);
        committedData := Serial.Put(committedData, k, data[k]);
        done := done[k := data[k]];
        pending := pending - {k};
      }
      assert done == data;
    }

    method Rollback()
      requires runningTxExists
      modifies this`runningTxExists, this`uncommittedData
      ensures Model() == EndTx(old(Model()), false)
    {
      runningTxExists := false;
      uncommittedData := map[];
    }
  }
}
