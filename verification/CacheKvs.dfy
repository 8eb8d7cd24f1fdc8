/**
 `CacheKVS`, through which the enclave reads the host store: whatever the host answers, a run looks
 like a run on one fixed map, and each key is asked for at most once.
 */
module CacheKvs {
  import opened Types
  import opened RocksDb
  import opened Serial

  datatype Call = Get(k: string) | Set(k: string, v: Bytes) | Remove(k: string)

  /** The cache, what the parent was asked and answered, and the results of the gets so far. */
  datatype View = View(cache: Buffer, asked: seq<(string, Option<Bytes>)>, outs: seq<Option<Bytes>>)

  const FRESH_VIEW := View(map[], [], [])

  /** One call; `answer` is what the parent would answer now. */
  function Serve(v: View, call: Call, answer: Option<Bytes>): View {
    match call
    case Get(k) =>
      if k in v.cache then v.(outs := v.outs + [v.cache[k]])
      else View(v.cache[k := answer], v.asked + [(k, answer)], v.outs + [answer])
    case Set(k, b) => v.(cache := v.cache[k := Some(b)])
    case Remove(k) => v.(cache := v.cache[k := None])
  }

  /** The first `n` calls, with arbitrary answers. */
  function ServeAll(calls: seq<Call>, answers: seq<Option<Bytes>>, n: nat): View
    requires n <= |calls| == |answers|
  {
    if n == 0 then FRESH_VIEW else Serve(ServeAll(calls, answers, n - 1), calls[n - 1], answers[n - 1])
  }

  /** The reference: a plain map. */
  function PlainData(init: Db, calls: seq<Call>, n: nat): Db
    requires n <= |calls|
  {
    if n == 0 then init
    else
      var db := PlainData(init, calls, n - 1);
      match calls[n - 1] case Get(_) => db case Set(k, b) => Put(db, k, Some(b)) case Remove(k) => Put(db, k, None)
  }

  function PlainOuts(init: Db, calls: seq<Call>, n: nat): seq<Option<Bytes>>
    requires n <= |calls|
  {
    if n == 0 then []
    else
      var outs := PlainOuts(init, calls, n - 1);
      if calls[n - 1].Get? then outs + [Lookup(PlainData(init, calls, n - 1), calls[n - 1].k)] else outs
  }

  /** The map holds what the parent answered. */
  ghost predicate Explains(init: Db, asked: seq<(string, Option<Bytes>)>) {
    forall i :: 0 <= i < |asked| ==> Lookup(init, asked[i].0) == asked[i].1
  }

  lemma {:induction false} PlainAgrees(init: Db, calls: seq<Call>, answers: seq<Option<Bytes>>, n: nat)
    requires n <= |calls| == |answers| && Explains(init, ServeAll(calls, answers, n).asked)
    ensures var v, db := ServeAll(calls, answers, n), PlainData(init, calls, n);
            && v.outs == PlainOuts(init, calls, n)
            && (forall k :: Lookup(db, k) == if k in v.cache then v.cache[k] else Lookup(init, k))
  {
    if n > 0 {
      var w, v := ServeAll(calls, answers, n - 1), ServeAll(calls, answers, n);
      assert forall i :: 0 <= i < |w.asked| ==> w.asked[i] == v.asked[i];
      PlainAgrees(init, calls, answers, n - 1);
      if calls[n - 1].Get? && calls[n - 1].k !in w.cache {
        assert v.asked[|w.asked|] == (calls[n - 1].k, answers[n - 1]);
      }
    }
  }

  ghost predicate Distinct(asked: seq<(string, Option<Bytes>)>) {
    forall i, j :: 0 <= i < j < |asked| ==> asked[i].0 != asked[j].0
  }

  ghost predicate Cached(v: View) { forall i :: 0 <= i < |v.asked| ==> v.asked[i].0 in v.cache }

  lemma ServeAsksOnce(v: View, call: Call, answer: Option<Bytes>)
    requires Cached(v) && Distinct(v.asked)
    ensures Cached(Serve(v, call, answer)) && Distinct(Serve(v, call, answer).asked)
  {
    var w := Serve(v, call, answer);
    assert forall i :: 0 <= i < |v.asked| ==> w.asked[i] == v.asked[i];
  }

  /** Every key is asked for at most once, and is cached from then on. */
  lemma {:induction false} AskedOnce(calls: seq<Call>, answers: seq<Option<Bytes>>, n: nat)
    requires n <= |calls| == |answers|
    ensures Cached(ServeAll(calls, answers, n)) && Distinct(ServeAll(calls, answers, n).asked)
  {
    if n > 0 {
      AskedOnce(calls, answers, n - 1);
      ServeAsksOnce(ServeAll(calls, answers, n - 1), calls[n - 1], answers[n - 1]);
    }
  }

  /** The answers, as a map. */
  function Answered(asked: seq<(string, Option<Bytes>)>): Db {
    if |asked| == 0 then map[]
    else Put(Answered(asked[..|asked| - 1]), asked[|asked| - 1].0, asked[|asked| - 1].1)
  }

  lemma {:induction false} AnsweredExplains(asked: seq<(string, Option<Bytes>)>)
    requires Distinct(asked)
    ensures Explains(Answered(asked), asked)
  {
    if |asked| > 0 {
      AnsweredExplains(asked[..|asked| - 1]);
      assert forall i :: 0 <= i < |asked| - 1 ==> asked[..|asked| - 1][i] == asked[i];
    }
  }

  /** However the parent answers, the results are those of a plain map from one fixed initial map. */
  lemma RepeatableReads(calls: seq<Call>, answers: seq<Option<Bytes>>)
    requires |calls| == |answers|
    ensures exists init :: ServeAll(calls, answers, |calls|).outs == PlainOuts(init, calls, |calls|)
  {
    var asked := ServeAll(calls, answers, |calls|).asked;
    AskedOnce(calls, answers, |calls|);
    AnsweredExplains(asked);
    PlainAgrees(Answered(asked), calls, answers, |calls|);
  }

  // ---------------------------------------------------------------------------------------
  // The cache over a parent that may change by itself

  class Parent {
    var data: Db
  }

  class CacheKVS {
    const parent: Parent
    var cache: Buffer
    ghost var asked: seq<(string, Option<Bytes>)>
    ghost var outs: seq<Option<Bytes>>

    constructor (parent: Parent)
      ensures this.parent == parent && Seen() == FRESH_VIEW
    {
      this.parent := parent;
      cache, asked, outs := map[], [], [];
    }

    ghost function Seen(): View
      reads this
    {
      View(cache, asked, outs)
    }

    /** The cache agrees with the parent. */
    ghost predicate Coherent()
      reads this, parent
    {
      forall k :: k in cache ==> cache[k] == Lookup(parent.data, k)
    }

    method Get(k: string) returns (v: Option<Bytes>)
      modifies this
      ensures Seen() == Serve(old(Seen()), Call.Get(k), Lookup(parent.data, k))
      ensures outs == old(outs) + [v]
      ensures old(Coherent()) ==> Coherent() && v == Lookup(parent.data, k)
    {
      if k in cache {
        v := cache[k];
      } else {
        v := Lookup(parent.data, k);
        cache := cache[k := v];
        asked := asked + [(k, v)];
      }
      outs := outs + [v];
    }

    method Set(k: string, v: Bytes)
      modifies this, parent
      ensures Seen() == Serve(old(Seen()), Call.Set(k, v), None)
      ensures parent.data == old(parent.data)[k := v]
      ensures old(Coherent()) ==> Coherent()
    {
      parent.data := parent.data[k := v];
      cache := cache[k := Some(v)];
    }

    method Remove(k: string)
      modifies this, parent
      ensures Seen() == Serve(old(Seen()), Call.Remove(k), None)
      ensures parent.data == old(parent.data) - {k}
      ensures old(Coherent()) ==> Coherent()
    {
      parent.data := parent.data - {k};
      cache := cache[k := None];
    }
  }
}
