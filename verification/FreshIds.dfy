/**
 Client identifiers are fresh: over every interleaving of create-client and update-client commands the
 committed creations, of all types together, are numbered consecutively, no two of them get the same id,
 and none replaces a client unless one with its id was there when the store was opened.
 */
module FreshIds {
  import opened Types
  import opened ByteCodec
  import opened Paths
  import opened RocksDb
  import opened Serial
  import opened Serialisability
  import opened ClientContext
  import opened CommandRuns

  // ---------------------------------------------------------------------------------------
  // Numbers

  /** The counter after `r` increments. */
  function Number(first: nat, r: nat): nat { if r == 0 then first else NextCounter(Number(first, r - 1)) }

  lemma IncrementWraps(a: nat)
    ensures (a % COUNTERS + 1) % COUNTERS == (a + 1) % COUNTERS
  {
    var q, m := a / COUNTERS, a % COUNTERS;
    if m + 1 < COUNTERS {
      assert (a + 1) / COUNTERS == q;
    } else {
      assert a + 1 == COUNTERS * (q + 1);
    }
  }

  lemma {:induction false} NumberIs(first: nat, r: nat)
    requires first < COUNTERS
    ensures Number(first, r) == (first + r) % COUNTERS
  {
    if r > 0 {
      NumberIs(first, r - 1);
      IncrementWraps(first + r - 1);
    }
  }

  lemma DifferentRemainders(a: nat, b: nat)
    requires a < b < a + COUNTERS
    ensures a % COUNTERS != b % COUNTERS
  {
  }

  /** Fewer than all values of the counter apart, two numbers differ. */
  lemma NumbersDiffer(first: nat, r: nat, later: nat)
    requires first < COUNTERS && r < later < r + COUNTERS
    ensures Number(first, r) != Number(first, later)
  {
    NumberIs(first, r);
    NumberIs(first, later);
    DifferentRemainders(first + r, first + later);
  }

  lemma CounterBound(v: Option<Bytes>)
    ensures CounterOf(v).Some? ==> CounterOf(v).value < COUNTERS
  {
    if v.Some? && |v.value| == 8 {
      FromBEBound(v.value);
      Pow256Values();
    }
  }

  // ---------------------------------------------------------------------------------------
  // The committed creations

  function Creations(cs: Commands, commits: seq<Commit>): (own: seq<Commit>)
    ensures |own| <= |commits|
  {
    if |commits| == 0 then []
    else
      var rest, c := Creations(cs, commits[..|commits| - 1]), commits[|commits| - 1];
      if c.key in cs.types then rest + [c] else rest
  }

  lemma CreationsExtend(cs: Commands, commits: seq<Commit>, c: Commit)
    ensures Creations(cs, commits + [c])
         == if c.key in cs.types then Creations(cs, commits) + [c] else Creations(cs, commits)
  {
    assert (commits + [c])[..|commits|] == commits;
  }

  /** The creations are numbered from `first` on. */
  ghost predicate Consecutive(cs: Commands, first: nat, own: seq<Commit>) {
    |own| == 0
    || (var c := own[|own| - 1];
        && c.key in cs.types && IsCreation(c.log, cs.types[c.key], cs.inputs(c.id))
        && NumberOf(c.log) == Number(first, |own| - 1)
        && Consecutive(cs, first, own[..|own| - 1]))
  }

  lemma {:induction false} ConsecutiveAt(cs: Commands, first: nat, own: seq<Commit>, r: nat)
    requires Consecutive(cs, first, own) && r < |own|
    ensures own[r].key in cs.types && IsCreation(own[r].log, cs.types[own[r].key], cs.inputs(own[r].id))
    ensures NumberOf(own[r].log) == Number(first, r)
  {
    if r < |own| - 1 { ConsecutiveAt(cs, first, own[..|own| - 1], r); }
  }

  /** The counter and the creations committed so far agree. */
  ghost predicate Numbered(cs: Commands, first: nat, d: Data) {
    var own := Creations(cs, d.commits);
    CounterOf(Lookup(d.db, COUNTER_KEY)) == Some(Number(first, |own|)) && Consecutive(cs, first, own)
  }

  /** One of the creations made client `m` of the type. */
  ghost predicate Made(cs: Commands, own: seq<Commit>, clientType: string, m: nat) {
    |own| > 0
    && var c := own[|own| - 1];
    || (c.key in cs.types && cs.types[c.key] == clientType && NumberOf(c.log) == m)
    || Made(cs, own[..|own| - 1], clientType, m)
  }

  // ---------------------------------------------------------------------------------------
  // What a commit leaves

  lemma CreationLeavesCounter(clientType: string, input: Input, db: Db, log: seq<Op>)
    requires IsCreation(log, clientType, input)
    ensures CounterOf(Lookup(Overlay(db, Writes(log)), COUNTER_KEY)) == Some(NextCounter(NumberOf(log)))
  {
    var n :| Creates(log, clientType, n, input);
    CounterRoundTrip(NextCounter(n));
    assert Lookup(Overlay(db, Writes(log)), COUNTER_KEY) == Writes(log)[COUNTER_KEY];
  }

  lemma CreationLeavesType(clientType: string, input: Input, db: Db, log: seq<Op>)
    requires IsCreation(log, clientType, input)
    ensures ValidClientId(GenClientId(clientType, NumberOf(log)))
    ensures TypeKey(clientType, NumberOf(log)) in Overlay(db, Writes(log))
  {
    var n :| Creates(log, clientType, n, input);
    assert Lookup(Overlay(db, Writes(log)), TypeKey(clientType, n)) == Writes(log)[TypeKey(clientType, n)];
  }

  /** The type of every other client stays. */
  lemma CreationLeavesOthers(clientType: string, input: Input, db: Db, log: seq<Op>, other: string, m: nat)
    requires IsCreation(log, clientType, input) && ValidClientId(GenClientId(other, m))
    requires other != clientType || m != NumberOf(log)
    ensures Lookup(Overlay(db, Writes(log)), TypeKey(other, m)) == Lookup(db, TypeKey(other, m))
  {
    var n :| Creates(log, clientType, n, input);
    OtherTypeKey(clientType, n, other, m);
    var id, h := GenClientId(clientType, n), input.height.value;
    if NewPath(TypeKey(other, m), id, h) { NewPathOf(TypeKey(other, m), id, h); }
  }

  lemma OtherTypeKey(clientType: string, n: nat, other: string, m: nat)
    requires other != clientType || m != n
    requires ValidClientId(GenClientId(other, m)) && ValidClientId(GenClientId(clientType, n))
    ensures TypeKey(other, m) != COUNTER_KEY && !PathOf(TypeKey(other, m), GenClientId(clientType, n))
  {
    var k := ClientType(GenClientId(other, m));
    if Render(k) == COUNTER_KEY { PathsNeverCollide(k, ClientCounter); }
    forall key: Key | !key.ClientCounter? && key.id == GenClientId(clientType, n) ensures Render(key) != Render(k) {
      if Render(key) == Render(k) {
        PathsNeverCollide(key, k);
        ClientIdInjective(clientType, n, other, m);
      }
    }
  }

  lemma {:induction false} UpdateWrites(log: seq<Op>)
    requires UpdateLog(log)
    ensures forall k :: k in Writes(log) ==> UpdatePath(k)
  {
    if |log| > 0 { UpdateWrites(log[..|log| - 1]); }
  }

  /** An update-client command leaves the counter and every client's type. */
  lemma UpdateLeaves(db: Db, log: seq<Op>, key: Key)
    requires UpdateLog(log) && ValidKey(key) && (key.ClientCounter? || key.ClientType?)
    ensures Lookup(Overlay(db, Writes(log)), Render(key)) == Lookup(db, Render(key))
  {
    UpdateWrites(log);
    if Render(key) in Writes(log) {
      var p: Key :| (p.ClientStateKey? || p.ConsensusKey?) && ValidClientId(p.id) && Render(key) == Render(p);
      PathsNeverCollide(p, key);
    }
  }

  // ---------------------------------------------------------------------------------------
  // Every step

  lemma NumberedCommit(cs: Commands, first: nat, d: Data, c: Commit, d': Data)
    requires Numbered(cs, first, d) && Commits(cs, d, c, d')
    ensures Numbered(cs, first, d')
  {
    CreationsExtend(cs, d.commits, c);
    if c.key in cs.types {
      CreationLeavesCounter(cs.types[c.key], cs.inputs(c.id), d.db, c.log);
      var own := Creations(cs, d.commits);
      assert (own + [c])[..|own|] == own;
    } else {
      UpdateLeaves(d.db, c.log, ClientCounter);
    }
  }

  /** The types stored are the initial ones and those the creations made. */
  ghost predicate TypeExact(cs: Commands, db0: Db, d: Data, clientType: string, m: nat) {
    TypeKey(clientType, m) in d.db <==>
      TypeKey(clientType, m) in db0 || Made(cs, Creations(cs, d.commits), clientType, m)
  }

  lemma TypeExactCommit(cs: Commands, db0: Db, d: Data, c: Commit, d': Data, clientType: string, m: nat)
    requires Commits(cs, d, c, d') && TypeExact(cs, db0, d, clientType, m)
    requires ValidClientId(GenClientId(clientType, m))
    ensures TypeExact(cs, db0, d', clientType, m)
  {
    CreationsExtend(cs, d.commits, c);
    if c.key in cs.types {
      var own := Creations(cs, d.commits);
      assert (own + [c])[..|own|] == own;
      if cs.types[c.key] == clientType && NumberOf(c.log) == m {
        CreationLeavesType(clientType, cs.inputs(c.id), d.db, c.log);
      } else {
        CreationLeavesOthers(cs.types[c.key], cs.inputs(c.id), d.db, c.log, clientType, m);
        SameLookup(d.db, d'.db, TypeKey(clientType, m));
      }
    } else {
      UpdateLeaves(d.db, c.log, ClientType(GenClientId(clientType, m)));
      SameLookup(d.db, d'.db, TypeKey(clientType, m));
    }
  }

  lemma SameLookup(a: Db, b: Db, k: string)
    requires Lookup(a, k) == Lookup(b, k)
    ensures k in a <==> k in b
  {
  }

  /** Each commit and each live handle used up an id of its own. */
  ghost predicate Bounded(h: History) { |h.commits| + |h.s.locks.handles| <= h.s.locks.latest }

  lemma AddedHandle(l: Locks, key: Option<UpdateKey>)
    requires CanAddHandle(l, key)
    ensures |AddHandle(l, key).handles| <= |l.handles| + 1
  {
    var r := AddHandle(l, key);
    MapGrows(l.handles, l.latest + 1, r.handles);
  }

  lemma MapGrows(a: map<TxId, Handle>, t: TxId, b: map<TxId, Handle>)
    requires b.Keys == a.Keys + {t}
    ensures |b| <= |a| + 1
  {
    assert |b| == |b.Keys| && |a| == |a.Keys|;
  }

  lemma CreateHandles(s: State, key: Option<UpdateKey>)
    ensures var l, r := s.locks, Create(s, key).0.locks; |r.handles| - |l.handles| <= r.latest - l.latest
  {
    var l := s.locks;
    if l.latest + 1 < 0x1_0000_0000_0000_0000 {
      if s.readOnly || key.None? {
        AddedHandle(l, None);
      } else if key.value != "" {
        AddedHandle(EnsureMutex(l, key.value), key);
      }
    }
  }

  /** A step that is no creation of a handle: who ends is gone, all others stay. */
  lemma OtherHandles(s: State, step: Step)
    requires Next(s, step).Some? && !step.CreateStep?
    ensures Next(s, step).value.locks.latest == s.locks.latest
    ensures Next(s, step).value.locks.handles.Keys ==
            if step.CommitStep? || step.RollbackStep? || step.DropStep? then s.locks.handles.Keys - {step.t}
            else s.locks.handles.Keys
    ensures step.CommitStep? || step.RollbackStep? || step.DropStep? ==> step.t in s.locks.handles.Keys
  {
  }

  lemma BoundedNext(h: History, step: Step, h': History)
    requires Inv(h.s) && Bounded(h) && Record(h, step) == Some(h')
    ensures Bounded(h')
  {
    if step.CreateStep? {
      CreateHandles(h.s, step.key);
    } else {
      OtherHandles(h.s, step);
      Cardinality(h.s.locks.handles, h'.s.locks.handles, step);
    }
  }

  lemma Cardinality(a: map<TxId, Handle>, b: map<TxId, Handle>, step: Step)
    requires !step.CreateStep?
    requires b.Keys == if step.CommitStep? || step.RollbackStep? || step.DropStep? then a.Keys - {step.t} else a.Keys
    requires step.CommitStep? || step.RollbackStep? || step.DropStep? ==> step.t in a.Keys
    ensures |b| == if step.CommitStep? || step.RollbackStep? || step.DropStep? then |a| - 1 else |a|
  {
    assert |b| == |b.Keys| && |a| == |a.Keys|;
  }

  // ---------------------------------------------------------------------------------------
  // Every run

  lemma {:induction false} RunIsBounded(db0: Db, hs: seq<History>, steps: seq<Step>, i: nat)
    requires RecordedRun(db0, hs, steps) && i < |hs|
    ensures Bounded(hs[i])
  {
    if i > 0 {
      RunIsBounded(db0, hs, steps, i - 1);
      BoundedStep(db0, hs, steps, i - 1);
    }
  }

  lemma BoundedStep(db0: Db, hs: seq<History>, steps: seq<Step>, i: nat)
    requires RecordedRun(db0, hs, steps) && i < |steps| && Bounded(hs[i])
    ensures Bounded(hs[i + 1])
  {
    RecordedInv(db0, hs, steps, i);
    assert Recorded(hs, steps, i);
    BoundedNext(hs[i], steps[i], hs[i + 1]);
  }

  lemma {:induction false} RunIsNumbered(cs: Commands, db0: Db, hs: seq<History>, steps: seq<Step>, i: nat, first: nat)
    requires CommandRun(cs, db0, hs, steps) && Guarded(cs, hs, steps) && i < |hs|
    requires CounterOf(Lookup(db0, COUNTER_KEY)) == Some(first)
    ensures Numbered(cs, first, DataOf(hs[i]))
  {
    if i > 0 {
      RunIsNumbered(cs, db0, hs, steps, i - 1, first);
      StepGrows(cs, db0, hs, steps, i - 1);
      var d, d' := DataOf(hs[i - 1]), DataOf(hs[i]);
      if d' != d {
        var c :| Commits(cs, d, c, d');
        NumberedCommit(cs, first, d, c, d');
      }
    }
  }

  lemma {:induction false} RunIsTypeExact(cs: Commands, db0: Db, hs: seq<History>, steps: seq<Step>, i: nat,
                                          clientType: string, m: nat)
    requires CommandRun(cs, db0, hs, steps) && Guarded(cs, hs, steps) && i < |hs|
    requires ValidClientId(GenClientId(clientType, m))
    ensures TypeExact(cs, db0, DataOf(hs[i]), clientType, m)
  {
    if i > 0 {
      RunIsTypeExact(cs, db0, hs, steps, i - 1, clientType, m);
      StepGrows(cs, db0, hs, steps, i - 1);
      var d, d' := DataOf(hs[i - 1]), DataOf(hs[i]);
      if d' != d {
        var c :| Commits(cs, d, c, d');
        TypeExactCommit(cs, db0, d, c, d', clientType, m);
      }
    }
  }

  /** The creations committed, of all types, are numbered one after another, in commit order. */
  lemma CreationsAreNumbered(cs: Commands, db0: Db, hs: seq<History>, steps: seq<Step>, i: nat, first: nat, r: nat)
    requires CommandRun(cs, db0, hs, steps) && Guarded(cs, hs, steps) && i < |hs|
    requires CounterOf(Lookup(db0, COUNTER_KEY)) == Some(first) && r < |Creations(cs, hs[i].commits)|
    ensures var c := Creations(cs, hs[i].commits)[r];
            c.key in cs.types && Creates(c.log, cs.types[c.key], (first + r) % COUNTERS, cs.inputs(c.id))
  {
    CounterBound(Lookup(db0, COUNTER_KEY));
    NumberIs(first, r);
    RunIsNumbered(cs, db0, hs, steps, i, first);
    ConsecutiveAt(cs, first, Creations(cs, hs[i].commits), r);
    var c := Creations(cs, hs[i].commits)[r];
    var n :| Creates(c.log, cs.types[c.key], n, cs.inputs(c.id));
    assert n == NumberOf(c.log);
  }

  /** The id a committed creation gave its client. */
  function IdOf(cs: Commands, c: Commit): ClientId
    requires c.key in cs.types
  {
    GenClientId(cs.types[c.key], NumberOf(c.log))
  }

  /** No two creations of a run, of whatever types, get the same id: every transaction uses up one of the
      store's ids, so there are fewer of them than values of the counter. */
  lemma IdsNeverRepeat(cs: Commands, db0: Db, hs: seq<History>, steps: seq<Step>, i: nat, r: nat, later: nat)
    requires CommandRun(cs, db0, hs, steps) && Guarded(cs, hs, steps) && i < |hs|
    requires CounterOf(Lookup(db0, COUNTER_KEY)).Some?
    requires r < later < |Creations(cs, hs[i].commits)|
    ensures var own := Creations(cs, hs[i].commits);
            && own[r].key in cs.types && own[later].key in cs.types
            && IdOf(cs, own[r]) != IdOf(cs, own[later])
  {
    var own, first := Creations(cs, hs[i].commits), CounterOf(Lookup(db0, COUNTER_KEY)).value;
    CounterBound(Lookup(db0, COUNTER_KEY));
    RunIsNumbered(cs, db0, hs, steps, i, first);
    ConsecutiveAt(cs, first, own, r);
    ConsecutiveAt(cs, first, own, later);
    RunIsBounded(db0, hs, steps, i);
    NumbersDiffer(first, r, later);
    if IdOf(cs, own[r]) == IdOf(cs, own[later]) {
      ClientIdInjective(cs.types[own[r].key], NumberOf(own[r].log), cs.types[own[later].key], NumberOf(own[later].log));
    }
  }

  lemma {:induction false} NotMadeBefore(cs: Commands, first: nat, own: seq<Commit>,
                                         clientType: string, later: nat)
    requires Consecutive(cs, first, own) && first < COUNTERS && |own| <= later < COUNTERS
    ensures !Made(cs, own, clientType, Number(first, later))
  {
    if |own| > 0 {
      NumbersDiffer(first, |own| - 1, later);
      NotMadeBefore(cs, first, own[..|own| - 1], clientType, later);
    }
  }

  lemma NextNumber(cs: Commands, first: nat, d: Data, log: seq<Op>, clientType: string, input: Input)
    requires Numbered(cs, first, d) && CreatesNext(log, clientType, input, d.db)
    ensures NumberOf(log) == Number(first, |Creations(cs, d.commits)|)
  {
  }

  lemma NotMade(cs: Commands, first: nat, d: Data, clientType: string)
    requires Numbered(cs, first, d) && first < COUNTERS && |Creations(cs, d.commits)| < COUNTERS
    ensures !Made(cs, Creations(cs, d.commits), clientType, Number(first, |Creations(cs, d.commits)|))
  {
    NotMadeBefore(cs, first, Creations(cs, d.commits), clientType, |Creations(cs, d.commits)|);
  }

  lemma CommittedClient(cs: Commands, d: Data, c: Commit, d': Data)
    requires Commits(cs, d, c, d') && c.key in cs.types
    ensures ValidClientId(IdOf(cs, c)) && cs.inputs(c.id).height.Some?
    ensures ClientStored(d.db, d'.db, IdOf(cs, c), cs.inputs(c.id), ToBE(NextCounter(NumberOf(c.log)), 8))
  {
    var n :| Creates(c.log, cs.types[c.key], n, cs.inputs(c.id));
    CreationStores(d.db, c.log, cs.types[c.key], n, cs.inputs(c.id));
  }

  /** A committing creation has the next number. A client with its id was there before exactly if one was
      there when the store was opened. Afterwards its type, client state and consensus state are stored as
      given, the counter is the next one, and nothing else has changed. */
  lemma NeverReplaces(cs: Commands, db0: Db, hs: seq<History>, steps: seq<Step>, i: nat, first: nat,
                      t: TxId, u: UpdateKey)
    requires CommandRun(cs, db0, hs, steps) && Guarded(cs, hs, steps) && i < |steps|
    requires CounterOf(Lookup(db0, COUNTER_KEY)) == Some(first)
    requires steps[i] == CommitStep(t) && HandleKey(hs[i].s, t) == Some(u) && u in cs.types
    ensures var clientType, n := cs.types[u], NumberOf(LogOf(hs[i], t));
            && IsCreation(LogOf(hs[i], t), clientType, cs.inputs(t)) && cs.inputs(t).height.Some?
            && ClientStored(hs[i].s.db, hs[i + 1].s.db, GenClientId(clientType, n), cs.inputs(t),
                            ToBE(NextCounter(n), 8))
            && n == Number(first, |Creations(cs, hs[i].commits)|)
            && (TypeKey(clientType, n) in hs[i].s.db <==> TypeKey(clientType, n) in db0)
  {
    var d, c := DataOf(hs[i]), Commit(t, u, LockTime(hs[i], t), LogOf(hs[i], t));
    CounterBound(Lookup(db0, COUNTER_KEY));
    RunIsNumbered(cs, db0, hs, steps, i, first);
    CommitGrows(cs, db0, hs, steps, i, t, u);
    RunIsBounded(db0, hs, steps, i);
    NextNumber(cs, first, d, c.log, cs.types[u], cs.inputs(t));
    NotMade(cs, first, d, cs.types[u]);
    CommittedClient(cs, d, c, DataOf(hs[i + 1]));
    RunIsTypeExact(cs, db0, hs, steps, i, cs.types[u], NumberOf(c.log));
  }

  // ---------------------------------------------------------------------------------------
  // Opening the store again

  lemma {:induction false} NumberSmall(first: nat, r: nat)
    requires first + r < COUNTERS
    ensures Number(first, r) == first + r
  {
    if r > 0 { NumberSmall(first, r - 1); }
  }

  lemma {:induction false} MadeBelow(cs: Commands, first: nat, own: seq<Commit>, clientType: string, m: nat)
    requires Consecutive(cs, first, own) && Made(cs, own, clientType, m) && first + |own| <= COUNTERS
    ensures m < first + |own|
  {
    var c := own[|own| - 1];
    NumberSmall(first, |own| - 1);
    if Made(cs, own[..|own| - 1], clientType, m) { MadeBelow(cs, first, own[..|own| - 1], clientType, m); }
  }

  lemma SmallCounter(cs: Commands, first: nat, d: Data)
    requires Numbered(cs, first, d) && first + |Creations(cs, d.commits)| < COUNTERS
    ensures CounterOf(Lookup(d.db, COUNTER_KEY)) == Some(first + |Creations(cs, d.commits)|)
  {
    NumberSmall(first, |Creations(cs, d.commits)|);
  }

  lemma StoredBelow(cs: Commands, db0: Db, first: nat, d: Data, clientType: string, m: nat)
    requires Numbered(cs, first, d) && TypeExact(cs, db0, d, clientType, m)
    requires first + |Creations(cs, d.commits)| < COUNTERS
    requires TypeKey(clientType, m) in db0 ==> m < first
    ensures TypeKey(clientType, m) in d.db ==> m < first + |Creations(cs, d.commits)|
  {
    var own := Creations(cs, d.commits);
    if Made(cs, own, clientType, m) { MadeBelow(cs, first, own, clientType, m); }
  }

  /** If a client's number was below the counter when the store was opened, or the client was not there,
      then its number is below the counter as long as the counter has not wrapped. So no client is replaced
      over any number of openings of the store before that. */
  lemma NumbersStayBelowCounter(cs: Commands, db0: Db, hs: seq<History>, steps: seq<Step>, i: nat, first: nat,
                                clientType: string, m: nat)
    requires CommandRun(cs, db0, hs, steps) && Guarded(cs, hs, steps) && i < |hs|
    requires CounterOf(Lookup(db0, COUNTER_KEY)) == Some(first) && ValidClientId(GenClientId(clientType, m))
    requires TypeKey(clientType, m) in db0 ==> m < first
    requires first + |Creations(cs, hs[i].commits)| < COUNTERS
    ensures var n := CounterOf(Lookup(hs[i].s.db, COUNTER_KEY));
            && n == Some(first + |Creations(cs, hs[i].commits)|)
            && (TypeKey(clientType, m) in hs[i].s.db ==> m < n.value)
  {
    var d := DataOf(hs[i]);
    RunIsNumbered(cs, db0, hs, steps, i, first);
    RunIsTypeExact(cs, db0, hs, steps, i, clientType, m);
    SmallCounter(cs, first, d);
    StoredBelow(cs, db0, first, d, clientType, m);
  }
}
