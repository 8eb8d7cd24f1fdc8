/**
 The reference for the store's transactions: accesses replayed one after another on a plain map,
 with no snapshot, buffer or lock. A logged read replays only if it finds what it found before.
 */
module Serial {
  import opened Types
  import opened RocksDb

  datatype Op = Got(k: string, v: Option<Bytes>) | Wrote(k: string, v: Option<Bytes>)

  function Put(db: Db, k: string, v: Option<Bytes>): Db { if v.Some? then db[k := v.value] else db - {k} }

  function Apply(db: Db, op: Op): Option<Db> {
    match op
    case Got(k, v) => if Lookup(db, k) == v then Some(db) else None
    case Wrote(k, v) => Some(Put(db, k, v))
  }

  /** The log of one transaction run alone on `db`. */
  function Replay(db: Db, log: seq<Op>): Option<Db> {
    if |log| == 0 then Some(db)
    else match Replay(db, log[..|log| - 1]) case None => None case Some(d) => Apply(d, log[|log| - 1])
  }

  /** The last write of a log to each key. */
  function Writes(log: seq<Op>): Buffer {
    if |log| == 0 then map[]
    else
      var w, op := Writes(log[..|log| - 1]), log[|log| - 1];
      if op.Wrote? then w[op.k := op.v] else w
  }

  lemma SameDb(a: Db, b: Db)
    requires forall k :: Lookup(a, k) == Lookup(b, k)
    ensures a == b
  {
    assert forall k :: (k in a) == Lookup(a, k).Some? == Lookup(b, k).Some? == (k in b);
    assert forall k :: k in a ==> Some(a[k]) == Lookup(a, k) == Lookup(b, k) == Some(b[k]);
  }

  lemma OverlayPut(db: Db, buf: Buffer, k: string, v: Option<Bytes>)
    ensures Overlay(db, buf[k := v]) == Put(Overlay(db, buf), k, v)
  {
    SameDb(Overlay(db, buf[k := v]), Put(Overlay(db, buf), k, v));
  }

  lemma OverlayNothing(db: Db)
    ensures Overlay(db, map[]) == db
  {
    SameDb(Overlay(db, map[]), db);
  }

  lemma ReplayExtend(db: Db, log: seq<Op>, op: Op)
    ensures Replay(db, log + [op]) == match Replay(db, log) case None => None case Some(d) => Apply(d, op)
    ensures Writes(log + [op]) == if op.Wrote? then Writes(log)[op.k := op.v] else Writes(log)
  {
    assert (log + [op])[..|log|] == log;
  }

  /** A log that replays on `db` replays on every `db'` that agrees on the keys it touches, and
      leaves `db'` overlaid with its writes. */
  lemma {:induction false} ReplayElsewhere(db: Db, db': Db, log: seq<Op>)
    requires Replay(db, log).Some?
    requires forall i :: 0 <= i < |log| ==> Lookup(db, log[i].k) == Lookup(db', log[i].k)
    ensures Replay(db', log) == Some(Overlay(db', Writes(log)))
    ensures Replay(db, log) == Some(Overlay(db, Writes(log)))
  {
    if |log| == 0 {
      OverlayNothing(db);
      OverlayNothing(db');
    } else {
      var pre, op := log[..|log| - 1], log[|log| - 1];
      ReplayElsewhere(db, db', pre);
      if op.Wrote? {
        OverlayPut(db, Writes(pre), op.k, op.v);
        OverlayPut(db', Writes(pre), op.k, op.v);
      }
    }
  }
}
