/**
 What holds in every interleaving of the host store's steps: mutual exclusion per update key,
 exact collection of the mutex table, and freedom from deadlock.
 */
module StoreSafety {
  import opened Types
  import opened RocksDb

  ghost predicate Linked(states: seq<State>, steps: seq<Step>, i: nat)
    requires |states| == |steps| + 1 && i < |steps|
  {
    Next(states[i], steps[i]) == Some(states[i + 1])
  }

  /** A run: the states visited, one more than the steps taken. */
  ghost predicate Run(states: seq<State>, steps: seq<Step>) {
    && |states| == |steps| + 1
    && (exists db, readOnly :: states[0] == Init(db, readOnly))
    && (forall i :: 0 <= i < |steps| ==> Linked(states, steps, i))
  }

  lemma InitInv(db: Db, readOnly: bool)
    ensures Inv(Init(db, readOnly))
  {
  }

  lemma {:induction false} RunInv(states: seq<State>, steps: seq<Step>, i: nat)
    requires Run(states, steps) && i < |states|
    ensures Inv(states[i])
  {
    if i == 0 {
      var db, readOnly :| states[0] == Init(db, readOnly);
      InitInv(db, readOnly);
    } else {
      RunInv(states, steps, i - 1);
      assert Linked(states, steps, i - 1);
      InvNext(states[i - 1], steps[i - 1]);
    }
  }

  ghost function HandlesOf(l: Locks, u: UpdateKey): set<TxId> {
    set t | t in l.handles && l.handles[t].key == Some(u)
  }

  ghost predicate Holds(l: Locks, t: TxId, u: UpdateKey) {
    t in l.handles && l.handles[t].key == Some(u) && l.handles[t].prepared
  }

  lemma UsersAreHandlesOf(l: Locks, u: UpdateKey)
    requires TableOk(l) && HandlesOk(l) && u in l.table
    ensures Users(l, l.table[u]) == HandlesOf(l, u)
  {
  }

  /** In every reachable state the live handles of an update key share the table's mutex, which
      is counted once for the table and once for each of them; at most one of them is prepared. */
  lemma MutualExclusion(states: seq<State>, steps: seq<Step>, i: nat, u: UpdateKey)
    requires Run(states, steps) && i < |states|
    ensures var l := states[i].locks;
            && (u in l.table ==> l.table[u] in l.mutexes && l.mutexes[l.table[u]].count == 1 + |HandlesOf(l, u)|)
            && (forall t :: t in HandlesOf(l, u) ==> u in l.table && l.handles[t].mutex == Some(l.table[u]))
            && (forall t, v :: Holds(l, t, u) && Holds(l, v, u) ==> t == v)
  {
    RunInv(states, steps, i);
    var l := states[i].locks;
    if u in l.table { UsersAreHandlesOf(l, u); }
    forall t | t in HandlesOf(l, u) ensures u in l.table && l.handles[t].mutex == Some(l.table[u]) { }
  }

  /** Some step before the `i`-th began the transaction. */
  ghost predicate Begun(steps: seq<Step>, i: nat, t: TxId)
    requires i <= |steps|
  {
    exists j :: 0 <= j < i && steps[j] == BeginStep(t)
  }

  lemma BegunBefore(steps: seq<Step>, i: nat, t: TxId)
    requires 0 < i <= |steps|
    ensures Begun(steps, i, t) <==> Begun(steps, i - 1, t) || steps[i - 1] == BeginStep(t)
  {
    if Begun(steps, i - 1, t) {
      var j :| 0 <= j < i - 1 && steps[j] == BeginStep(t);
      assert 0 <= j < i;
    }
  }

  lemma {:induction false} BegunIdsAreOld(states: seq<State>, steps: seq<Step>, i: nat, t: TxId)
    requires Run(states, steps) && i < |states| && Begun(steps, i, t)
    ensures t <= states[i].locks.latest
  {
    BegunBefore(steps, i, t);
    RunInv(states, steps, i - 1);
    assert Linked(states, steps, i - 1);
    LatestGrows(states[i - 1], steps[i - 1]);
    if steps[i - 1] != BeginStep(t) { BegunIdsAreOld(states, steps, i - 1, t); }
  }

  lemma LatestGrows(s: State, step: Step)
    requires Next(s, step).Some?
    ensures s.locks.latest <= Next(s, step).value.locks.latest
  {
  }

  /** What one step does to a live handle and its transaction; a new handle has a new id. */
  lemma HandleAndTx(s: State, step: Step, t: TxId)
    requires Inv(s) && Next(s, step).Some? && t in Next(s, step).value.locks.handles
    ensures t !in s.locks.handles ==> t > s.locks.latest && t !in Next(s, step).value.txs && step.CreateStep?
    ensures t in s.locks.handles ==> (t in Next(s, step).value.txs <==> t in s.txs || step == BeginStep(t))
  {
  }

  /** A live handle has a running transaction exactly if some earlier step of the run began it. */
  lemma {:induction false} BegunIsRunning(states: seq<State>, steps: seq<Step>, i: nat, t: TxId)
    requires Run(states, steps) && i < |states| && t in states[i].locks.handles
    ensures t in states[i].txs <==> Begun(steps, i, t)
  {
    if i > 0 {
      var s, step := states[i - 1], steps[i - 1];
      RunInv(states, steps, i - 1);
      assert Linked(states, steps, i - 1);
      HandleAndTx(s, step, t);
      BegunBefore(steps, i, t);
      if t in s.locks.handles {
        BegunIsRunning(states, steps, i - 1, t);
      } else if Begun(steps, i - 1, t) {
        BegunIdsAreOld(states, steps, i - 1, t);
      }
    }
  }

  /** Finalising a live handle never meets a missing table entry, and it finds its transaction if and
      only if some earlier step of the run began the handle. */
  lemma FinalizeSucceeds(states: seq<State>, steps: seq<Step>, i: nat, t: TxId, commit: bool)
    requires Run(states, steps) && i < |states| && t in states[i].locks.handles
    ensures Finalize(states[i], t, commit) != InvariantViolation
    ensures Finalize(states[i], t, commit).Done? <==> Begun(steps, i, t)
  {
    RunInv(states, steps, i);
    BegunIsRunning(states, steps, i, t);
  }

  /** Finalising collects the table entry of its update key exactly when no other live handle has
      that key, and touches no other entry. */
  lemma CollectsExactly(s: State, t: TxId, commit: bool)
    requires Inv(s) && t in s.locks.handles && s.locks.handles[t].key.Some? && Finalize(s, t, commit).Done?
    ensures var u, l, r := s.locks.handles[t].key.value, s.locks, Finalize(s, t, commit).state.locks;
            && (u in r.table <==> HandlesOf(r, u) != {})
            && (forall k :: k != u ==> (k in r.table <==> k in l.table) && (k in r.table ==> r.table[k] == l.table[k]))
  {
    ReleaseCollects(s.locks, t);
  }

  lemma ReleaseCollects(l: Locks, t: TxId)
    requires LockInv(l) && t in l.handles && l.handles[t].key.Some? && l.handles[t].key.value in l.table
    ensures var u, r := l.handles[t].key.value, ReleaseHandle(l, t);
            && (u in r.table <==> HandlesOf(r, u) != {})
            && (forall k :: k != u ==> (k in r.table <==> k in l.table) && (k in r.table ==> r.table[k] == l.table[k]))
  {
    var u, r := l.handles[t].key.value, ReleaseHandle(l, t);
    UsersAreHandlesOf(l, u);
    assert HandlesOf(r, u) == HandlesOf(l, u) - {t};
    if l.mutexes[l.table[u]].count == 2 {
      LastUser(l, t);
    } else {
      assert |HandlesOf(r, u)| == |HandlesOf(l, u)| - 1;
    }
  }

  /** The step ends a handle of the update key. */
  predicate Ends(s: State, step: Step, u: UpdateKey) {
    && (step.CommitStep? || step.RollbackStep? || step.DropStep?)
    && step.t in s.locks.handles && s.locks.handles[step.t].key == Some(u)
  }

  /** The last of the first `i` steps that ended a handle of the update key dropped it. */
  predicate LeakedBy(states: seq<State>, steps: seq<Step>, i: nat, u: UpdateKey)
    requires |states| == |steps| + 1 && i <= |steps|
  {
    i > 0 && if Ends(states[i - 1], steps[i - 1], u) then steps[i - 1].DropStep? else LeakedBy(states, steps, i - 1, u)
  }

  lemma HandleHasEntry(l: Locks, u: UpdateKey)
    requires TableOk(l) && HandlesOk(l) && HandlesOf(l, u) != {}
    ensures u in l.table
  {
    var t :| t in HandlesOf(l, u);
  }

  /** A step that ends no handle of the key leaves its entry and its handles, or adds a handle. */
  lemma EntryKept(s: State, step: Step, u: UpdateKey)
    requires Inv(s) && Next(s, step).Some? && !Ends(s, step, u)
    ensures var l, r := s.locks, Next(s, step).value.locks;
            HandlesOf(r, u) != {} || (HandlesOf(l, u) == {} && (u in r.table <==> u in l.table))
  {
    match step
    case CreateStep(key) => CreateKeeps(s, key, u);
    case PrepareStep(t) => PrepareKeeps(s.locks, t, u);
    case CommitStep(t) => ReleaseKeeps(s.locks, t, u);
    case RollbackStep(t) => ReleaseKeeps(s.locks, t, u);
    case DropStep(t) => DropKeeps(s.locks, t, u);
    case BeginStep(_) =>
    case GetStep(_, _) =>
    case PutStep(_, _, _) =>
  }

  lemma PrepareKeeps(l: Locks, t: TxId, u: UpdateKey)
    requires Prepare(l, t).Some?
    ensures HandlesOf(Prepare(l, t).value, u) == HandlesOf(l, u)
  {
  }

  lemma DropKeeps(l: Locks, t: TxId, u: UpdateKey)
    requires t in l.handles && l.handles[t].key != Some(u)
    ensures HandlesOf(DropHandle(l, t), u) == HandlesOf(l, u)
  {
  }

  lemma CreateKeeps(s: State, key: Option<UpdateKey>, u: UpdateKey)
    requires Inv(s)
    ensures var l, r := s.locks, Create(s, key).0.locks;
            HandlesOf(r, u) != {} || (HandlesOf(l, u) == {} && (u in r.table <==> u in l.table))
  {
    var l, r := s.locks, Create(s, key).0.locks;
    if t :| t in HandlesOf(l, u) { assert t in HandlesOf(r, u); }
    if u in r.table && u !in l.table { assert r.latest in HandlesOf(r, u); }
  }

  lemma ReleaseKeeps(l: Locks, t: TxId, u: UpdateKey)
    requires LockInv(l) && t in l.handles && (l.handles[t].key.Some? ==> l.handles[t].key.value in l.table)
    requires l.handles[t].key != Some(u)
    ensures var r := ReleaseHandle(l, t); HandlesOf(r, u) == HandlesOf(l, u) && (u in r.table <==> u in l.table)
  {
    assert ReleaseHandle(l, t).handles == l.handles - {t};
    if l.handles[t].key.Some? { ReleaseCollects(l, t); }
  }

  /** Ending a handle collects the entry exactly with the last handle; dropping it collects nothing. */
  lemma EntryEnds(s: State, step: Step, u: UpdateKey)
    requires Inv(s) && Next(s, step).Some? && Ends(s, step, u)
    ensures var r := Next(s, step).value.locks;
            u in r.table <==> HandlesOf(r, u) != {} || step.DropStep?
  {
    if !step.DropStep? { ReleaseCollects(s.locks, step.t); }
  }

  /** In every interleaving the mutex table names an update key exactly if a live handle has it or the
      last handle of the key to end was dropped instead of finalised. */
  lemma {:induction false} TableIsExact(states: seq<State>, steps: seq<Step>, i: nat, u: UpdateKey)
    requires Run(states, steps) && i < |states|
    ensures u in states[i].locks.table <==> HandlesOf(states[i].locks, u) != {} || LeakedBy(states, steps, i, u)
  {
    RunInv(states, steps, i);
    if i > 0 {
      var s, step := states[i - 1], steps[i - 1];
      RunInv(states, steps, i - 1);
      assert Linked(states, steps, i - 1);
      if Ends(s, step, u) {
        EntryEnds(s, step, u);
      } else {
        TableIsExact(states, steps, i - 1, u);
        EntryKept(s, step, u);
        if HandlesOf(states[i].locks, u) != {} { HandleHasEntry(states[i].locks, u); }
      }
    }
  }

  lemma {:induction false} NoDropNoLeak(states: seq<State>, steps: seq<Step>, i: nat, u: UpdateKey)
    requires |states| == |steps| + 1 && i <= |steps|
    requires forall j :: 0 <= j < i ==> !steps[j].DropStep?
    ensures !LeakedBy(states, steps, i, u)
  {
    if i > 0 { NoDropNoLeak(states, steps, i - 1, u); }
  }

  /** So as long as every handle ended in a commit or a rollback, the table names exactly the update
      keys of the live handles, and is empty once they are all gone. */
  lemma NothingLeaks(states: seq<State>, steps: seq<Step>, i: nat, u: UpdateKey)
    requires Run(states, steps) && i < |states| && forall j :: 0 <= j < i ==> !steps[j].DropStep?
    ensures u in states[i].locks.table <==> HandlesOf(states[i].locks, u) != {}
  {
    TableIsExact(states, steps, i, u);
    NoDropNoLeak(states, steps, i, u);
  }

  /** A dropped handle can leave its entry behind: the condition above is needed. */
  lemma DroppedHandleLeaks(u: UpdateKey)
    requires u != ""
    ensures var s1 := Next(Init(map[], false), CreateStep(Some(u))).value;
            var s2 := Next(s1, DropStep(1));
            s2.Some? && u in s2.value.locks.table && HandlesOf(s2.value.locks, u) == {}
  {
  }

  // ---------------------------------------------------------------------------------------
  // Progress

  /** A step by which a live handle moves towards its end. */
  predicate Advancing(step: Step) { step.PrepareStep? || step.BeginStep? || step.CommitStep? || step.RollbackStep? }

  /** The handle that can move although `t` may be blocked: `t` itself or the holder of its mutex. */
  ghost function Runnable(l: Locks, t: TxId): (r: TxId)
    requires LockInv(l) && t in l.handles
    ensures r in l.handles && (l.handles[r].prepared || Prepare(l, r).Some?)
  {
    var h := l.handles[t];
    if !h.prepared && h.mutex.Some? && h.mutex.value in l.locked then l.locked[h.mutex.value] else t
  }

  /** What a runnable handle does next. */
  ghost function Move(s: State, r: TxId): (step: Step)
    requires r in s.locks.handles
    ensures Advancing(step)
  {
    if !s.locks.handles[r].prepared then PrepareStep(r) else if r in s.txs then CommitStep(r) else BeginStep(r)
  }

  lemma MoveEnabled(s: State, r: TxId)
    requires Inv(s) && r in s.locks.handles && (s.locks.handles[r].prepared || Prepare(s.locks, r).Some?)
    ensures Next(s, Move(s, r)).Some? && Inv(Next(s, Move(s, r)).value)
  {
    InvNext(s, Move(s, r));
  }

  /** Every reachable state with a live handle lets some handle advance. */
  lemma NoDeadlock(states: seq<State>, steps: seq<Step>, i: nat)
    requires Run(states, steps) && i < |states| && states[i].locks.handles != map[]
    ensures exists step :: Advancing(step) && Next(states[i], step).Some?
  {
    RunInv(states, steps, i);
    var s := states[i];
    var t :| t in s.locks.handles;
    MoveEnabled(s, Runnable(s.locks, t));
  }

  /** Within `fuel` steps that only advance live handles, all of them can end. */
  ghost predicate CanDrain(s: State, fuel: nat)
    decreases fuel
  {
    || s.locks.handles == map[]
    || (fuel > 0 && exists step :: Advancing(step) && Next(s, step).Some? && CanDrain(Next(s, step).value, fuel - 1))
  }

  /** The steps left to a handle: prepare, begin, commit. */
  ghost function StepsLeft(s: State, r: TxId): nat
    requires r in s.locks.handles
  {
    if !s.locks.handles[r].prepared then 3 else if r !in s.txs then 2 else 1
  }

  lemma {:induction false} MoreFuel(s: State, fuel: nat, more: nat)
    requires CanDrain(s, fuel) && fuel <= more
    ensures CanDrain(s, more)
    decreases fuel
  {
    if s.locks.handles != map[] {
      var step :| Advancing(step) && Next(s, step).Some? && CanDrain(Next(s, step).value, fuel - 1);
      MoreFuel(Next(s, step).value, fuel - 1, more - 1);
    }
  }

  lemma OneMore(s: State, step: Step, fuel: nat)
    requires Advancing(step) && Next(s, step).Some? && CanDrain(Next(s, step).value, fuel)
    ensures CanDrain(s, fuel + 1)
  {
  }

  lemma LastMove(s: State, r: TxId)
    requires Inv(s) && r in s.locks.handles && s.locks.handles[r].prepared && r in s.txs
    ensures Next(s, Move(s, r)).Some? && |Next(s, Move(s, r)).value.locks.handles| == |s.locks.handles| - 1
  {
    assert Next(s, Move(s, r)).value.locks.handles.Keys == s.locks.handles.Keys - {r};
  }

  lemma EarlierMove(s: State, r: TxId)
    requires Inv(s) && r in s.locks.handles && StepsLeft(s, r) > 1 && Next(s, Move(s, r)).Some?
    ensures var s' := Next(s, Move(s, r)).value;
            && r in s'.locks.handles && s'.locks.handles[r].prepared
            && |s'.locks.handles| == |s.locks.handles| && StepsLeft(s', r) == StepsLeft(s, r) - 1
  {
    assert Next(s, Move(s, r)).value.locks.handles.Keys == s.locks.handles.Keys;
  }

  /** The next state of a runnable handle, and what one more step from it buys. */
  lemma TakeMove(s: State, r: TxId) returns (s': State)
    requires Inv(s) && r in s.locks.handles && (s.locks.handles[r].prepared || Prepare(s.locks, r).Some?)
    ensures Inv(s') && forall fuel: nat :: CanDrain(s', fuel) ==> CanDrain(s, fuel + 1)
    ensures StepsLeft(s, r) == 1 ==> |s'.locks.handles| == |s.locks.handles| - 1
    ensures StepsLeft(s, r) > 1 ==>
              && r in s'.locks.handles && s'.locks.handles[r].prepared
              && |s'.locks.handles| == |s.locks.handles| && StepsLeft(s', r) == StepsLeft(s, r) - 1
  {
    MoveEnabled(s, r);
    s' := Next(s, Move(s, r)).value;
    forall fuel: nat | CanDrain(s', fuel) ensures CanDrain(s, fuel + 1) { OneMore(s, Move(s, r), fuel); }
    if StepsLeft(s, r) == 1 { LastMove(s, r); } else { EarlierMove(s, r); }
  }

  /** From every state the invariant allows, all live handles can end: three steps each suffice. */
  lemma {:induction false} AllHandlesCanEnd(s: State)
    requires Inv(s)
    ensures CanDrain(s, 3 * |s.locks.handles|)
    decreases |s.locks.handles|, 4
  {
    if s.locks.handles != map[] {
      var t :| t in s.locks.handles;
      var r := Runnable(s.locks, t);
      Drain(s, r, |s.locks.handles| - 1);
      MoreFuel(s, 3 * (|s.locks.handles| - 1) + StepsLeft(s, r), 3 * |s.locks.handles|);
    }
  }

  lemma {:induction false} Drain(s: State, r: TxId, others: nat)
    requires Inv(s) && r in s.locks.handles && (s.locks.handles[r].prepared || Prepare(s.locks, r).Some?)
    requires |s.locks.handles| == others + 1
    ensures CanDrain(s, 3 * others + StepsLeft(s, r))
    decreases others + 1, StepsLeft(s, r)
  {
    var s' := TakeMove(s, r);
    if StepsLeft(s, r) == 1 {
      AllHandlesCanEnd(s');
      assert CanDrain(s', 3 * others);
    } else {
      Drain(s', r, others);
    }
  }
}
