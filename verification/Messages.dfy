/** Proxy messages, validation contexts, and the aggregation of update messages. */
module Messages {
  import opened Types
  import opened ProtoAny

  datatype TrustingPeriod = TrustingPeriod(
    trustingPeriod: Duration, clockDrift: Duration, untrustedHeaderTime: Time, trustedStateTime: Time)

  datatype Context = Empty | Within(period: TrustingPeriod)

  datatype EmittedState = EmittedState(height: Height, state: Any)

  datatype UpdateState = UpdateState(
    prevHeight: Option<Height>, prevStateId: Option<StateId>,
    postHeight: Height, postStateId: StateId,
    timestamp: Time, context: Context, emittedStates: seq<EmittedState>)

  datatype VerifyMembership = VerifyMembership(
    prefix: Bytes, path: Str, value: Option<Bytes32>, height: Height, stateId: StateId)

  datatype PrevState = PrevState(height: Height, stateId: StateId)

  datatype Misbehaviour = Misbehaviour(prevStates: seq<PrevState>, context: Context, clientMessage: Any)

  datatype ProxyMessage =
    | Update(update: UpdateState)
    | Membership(membership: VerifyMembership)
    | Misbehave(misbehaviour: Misbehaviour)

  predicate ValidateUpdate(m: UpdateState) { m.prevHeight.None? == m.prevStateId.None? }

  predicate ValidateMembership(m: VerifyMembership) {
    m.path != [] && !m.height.IsZero() && m.stateId != Zeros(32)
  }

  predicate ValidateMisbehaviour(m: Misbehaviour) { m.prevStates != [] }

  predicate Validate(m: ProxyMessage) {
    match m
    case Update(u) => ValidateUpdate(u)
    case Membership(v) => ValidateMembership(v)
    case Misbehave(b) => ValidateMisbehaviour(b)
  }

  // ---------------------------------------------------------------------------------------
  // Validation contexts

  /** The end of the trusting period must be representable and after `now`. */
  predicate WithinTrustPeriod(now: Time, trusted: Time, period: Duration) {
    AddTime(trusted, period).Some? && AddTime(trusted, period).value > now
  }

  predicate HeaderFromPast(now: Time, untrusted: Time, drift: Duration) {
    AddTime(now, drift).Some? && AddTime(now, drift).value > untrusted
  }

  predicate ContextValid(c: Context, now: Time) {
    match c
    case Empty => true
    case Within(p) =>
      && WithinTrustPeriod(now, p.trustedStateTime, p.trustingPeriod)
      && HeaderFromPast(now, p.untrustedHeaderTime, p.clockDrift)
  }

  /** A context as two inequalities between instants; both bounds must be representable. */
  lemma ContextWindow(p: TrustingPeriod, now: Time)
    ensures ContextValid(Empty, now)
    ensures ContextValid(Within(p), now) <==>
              && now < p.trustedStateTime + p.trustingPeriod <= MAX_UNIX_TIMESTAMP_NANOS
              && p.untrustedHeaderTime < now + p.clockDrift <= MAX_UNIX_TIMESTAMP_NANOS
  {
  }

  function AggregateContexts(a: Context, b: Context): Option<Context> {
    match (a, b)
    case (Empty, _) => Some(b)
    case (Within(_), Empty) => Some(a)
    case (Within(p), Within(q)) =>
      if p.trustingPeriod != q.trustingPeriod || p.clockDrift != q.clockDrift then None
      else Some(Within(TrustingPeriod(
                         p.trustingPeriod, p.clockDrift,
                         if p.untrustedHeaderTime > q.untrustedHeaderTime
                         then p.untrustedHeaderTime else q.untrustedHeaderTime,
                         if p.trustedStateTime < q.trustedStateTime then p.trustedStateTime else q.trustedStateTime)))
  }

  function OrZero(h: Option<Height>): Height { if h.Some? then h.value else ZERO_HEIGHT }

  function IdOrZero(id: Option<StateId>): StateId { if id.Some? then id.value else Zeros(32) }

  /** `b` continues exactly where `a` ends; an absent previous state counts as zero. */
  predicate Linked(a: UpdateState, b: UpdateState) {
    a.postStateId == IdOrZero(b.prevStateId) && a.postHeight == OrZero(b.prevHeight)
  }

  function Aggregate(a: UpdateState, b: UpdateState): Option<UpdateState> {
    if !Linked(a, b) then None
    else
      match AggregateContexts(a.context, b.context)
      case None => None
      case Some(c) => Some(UpdateState(a.prevHeight, a.prevStateId, b.postHeight, b.postStateId,
                                       b.timestamp, c, a.emittedStates + b.emittedStates))
  }

  /** Aggregation of partial results: a failure on either side is a failure. */
  function Join(a: Option<UpdateState>, b: Option<UpdateState>): Option<UpdateState> {
    if a.Some? && b.Some? then Aggregate(a.value, b.value) else None
  }

  /** What `aggregate_messages` computes: the left fold, which fails on the empty list. */
  ghost function AggregateAll(ms: seq<UpdateState>): Option<UpdateState> {
    if ms == [] then None
    else if |ms| == 1 then Some(ms[0])
    else Join(AggregateAll(ms[..|ms| - 1]), Some(ms[|ms| - 1]))
  }

  method AggregateMessages(messages: seq<UpdateState>) returns (r: Option<UpdateState>)
    ensures r == AggregateAll(messages)
  {
    if messages == [] { return None; }
    var message := messages[0];
    var i := 1;
    while i < |messages|
      invariant 1 <= i <= |messages|
      invariant AggregateAll(messages[..i]) == Some(message)
    {
      assert messages[..i + 1][..i] == messages[..i];
      var next := Aggregate(message, messages[i]);
      if next.None? {
        FailureIsFinal(messages, i + 1);
        return None;
      }
      message := next.value;
      i := i + 1;
    }
    assert messages[..i] == messages;
    return Some(message);
  }

  lemma {:induction false} FailureIsFinal(ms: seq<UpdateState>, k: nat)
    requires 0 < k <= |ms| && AggregateAll(ms[..k]).None?
    ensures AggregateAll(ms).None?
  {
    if k == |ms| {
      assert ms[..k] == ms;
    } else {
      assert ms[..|ms| - 1][..k] == ms[..k];
      FailureIsFinal(ms[..|ms| - 1], k);
    }
  }

  // ---------------------------------------------------------------------------------------
  // Aggregation is a partial monoid

  ghost function JoinContexts(a: Option<Context>, b: Option<Context>): Option<Context> {
    if a.Some? && b.Some? then AggregateContexts(a.value, b.value) else None
  }

  /** Contexts: associative, also in when it fails, with `Empty` as the identity on both sides. */
  lemma ContextMonoid(a: Context, b: Context, c: Context)
    ensures JoinContexts(AggregateContexts(a, b), Some(c)) == JoinContexts(Some(a), AggregateContexts(b, c))
    ensures AggregateContexts(Empty, a) == Some(a) == AggregateContexts(a, Empty)
  {
  }

  lemma JoinAssociative(a: Option<UpdateState>, b: Option<UpdateState>, c: Option<UpdateState>)
    ensures Join(Join(a, b), c) == Join(a, Join(b, c))
  {
    if a.Some? && b.Some? && c.Some? {
      var x, y, z := a.value, b.value, c.value;
      ContextMonoid(x.context, y.context, z.context);
      var xs, ys, zs := x.emittedStates, y.emittedStates, z.emittedStates;
      assert (xs + ys) + zs == xs + (ys + zs);
    }
  }

  /** Splitting a list anywhere, aggregating both parts and joining them is aggregating the list. */
  lemma {:induction false} AggregateSplit(ms: seq<UpdateState>, k: nat)
    requires 0 < k < |ms|
    ensures AggregateAll(ms) == Join(AggregateAll(ms[..k]), AggregateAll(ms[k..]))
  {
    var n := |ms| - 1;
    if k == n {
      assert ms[k..] == [ms[n]];
    } else {
      var front := ms[..n];
      AggregateSplit(front, k);
      assert front[..k] == ms[..k];
      assert ms[k..][..n - k] == front[k..];
      assert AggregateAll(ms[k..]) == Join(AggregateAll(front[k..]), Some(ms[n]));
      JoinAssociative(AggregateAll(ms[..k]), AggregateAll(front[k..]), Some(ms[n]));
    }
  }

  // ---------------------------------------------------------------------------------------
  // What an aggregate is

  ghost function AllEmitted(ms: seq<UpdateState>): seq<EmittedState> {
    if ms == [] then [] else AllEmitted(ms[..|ms| - 1]) + ms[|ms| - 1].emittedStates
  }

  /** The shape of an aggregate: it starts like the first part and ends like the last. */
  lemma {:induction false} AggregateEnds(ms: seq<UpdateState>)
    requires AggregateAll(ms).Some?
    ensures var a, f, l := AggregateAll(ms).value, ms[0], ms[|ms| - 1];
            && a.prevHeight == f.prevHeight && a.prevStateId == f.prevStateId
            && a.postHeight == l.postHeight && a.postStateId == l.postStateId && a.timestamp == l.timestamp
            && a.emittedStates == AllEmitted(ms)
  {
    if |ms| > 1 { AggregateEnds(ms[..|ms| - 1]); }
  }

  /** `b` starts in the state in which `a` ends; nothing stands for zero. */
  predicate Continues(a: UpdateState, b: UpdateState) {
    && (b.prevHeight == Some(a.postHeight) || (b.prevHeight == None && a.postHeight == ZERO_HEIGHT))
    && (b.prevStateId == Some(a.postStateId) || (b.prevStateId == None && a.postStateId == Zeros(32)))
  }

  ghost predicate Chained(ms: seq<UpdateState>) { forall i :: 0 <= i < |ms| - 1 ==> Continues(ms[i], ms[i + 1]) }

  ghost predicate Timed(ms: seq<UpdateState>, i: int) { 0 <= i < |ms| && ms[i].context.Within? }

  predicate SamePeriod(p: TrustingPeriod, q: TrustingPeriod) {
    p.trustingPeriod == q.trustingPeriod && p.clockDrift == q.clockDrift
  }

  /** All trusting-period contexts have the same period and drift. */
  ghost predicate Compatible(ms: seq<UpdateState>) {
    forall i, j :: Timed(ms, i) && Timed(ms, j) ==> SamePeriod(ms[i].context.period, ms[j].context.period)
  }

  /** The context has the common period and drift, the latest header time and the earliest trusted time. */
  ghost predicate Covers(ms: seq<UpdateState>, c: Context) {
    if c.Empty? then forall i :: !Timed(ms, i)
    else
      && (forall i :: Timed(ms, i) ==>
            && SamePeriod(ms[i].context.period, c.period)
            && ms[i].context.period.untrustedHeaderTime <= c.period.untrustedHeaderTime
            && ms[i].context.period.trustedStateTime >= c.period.trustedStateTime)
      && (exists i :: Timed(ms, i) && ms[i].context.period.untrustedHeaderTime == c.period.untrustedHeaderTime)
      && (exists i :: Timed(ms, i) && ms[i].context.period.trustedStateTime == c.period.trustedStateTime)
  }

  lemma CompatibleWith(ms: seq<UpdateState>, m: UpdateState, c: Context)
    requires Covers(ms, c) && Compatible(ms)
    ensures AggregateContexts(c, m.context).Some? <==> Compatible(ms + [m])
  {
    var all := ms + [m];
    assert forall i :: Timed(ms, i) ==> Timed(all, i) && all[i] == ms[i];
    assert forall i :: Timed(all, i) && i < |ms| ==> Timed(ms, i) && all[i] == ms[i];
    if c.Within? && m.context.Within? {
      var i :| Timed(ms, i) && ms[i].context.period.untrustedHeaderTime == c.period.untrustedHeaderTime;
      assert Timed(all, i) && Timed(all, |ms|);
    }
  }

  lemma CoversMore(ms: seq<UpdateState>, m: UpdateState, c: Context)
    requires Covers(ms, c) && AggregateContexts(c, m.context).Some?
    ensures Covers(ms + [m], AggregateContexts(c, m.context).value)
  {
    var all, d := ms + [m], AggregateContexts(c, m.context).value;
    assert forall i :: Timed(ms, i) ==> Timed(all, i) && all[i] == ms[i];
    assert forall i :: Timed(all, i) && i < |ms| ==> Timed(ms, i) && all[i] == ms[i];
    if m.context.Within? { assert Timed(all, |ms|); }
    if c.Within? {
      var i :| Timed(ms, i) && ms[i].context.period.untrustedHeaderTime == c.period.untrustedHeaderTime;
      var j :| Timed(ms, j) && ms[j].context.period.trustedStateTime == c.period.trustedStateTime;
      assert Timed(all, i) && Timed(all, j);
    }
  }

  lemma ChainedMore(ms: seq<UpdateState>, m: UpdateState)
    requires ms != []
    ensures Chained(ms + [m]) <==> Chained(ms) && Continues(ms[|ms| - 1], m)
  {
    var all := ms + [m];
    if Chained(all) {
      assert Continues(all[|ms| - 1], all[|ms|]);
      forall i | 0 <= i < |ms| - 1 ensures Continues(ms[i], ms[i + 1]) { assert Continues(all[i], all[i + 1]); }
    }
  }

  lemma LinkedIsContinues(a: UpdateState, b: UpdateState)
    ensures Linked(a, b) <==> Continues(a, b)
  {
  }

  /**
   Messages aggregate if and only if there is one, each continues the one before it, and their contexts
   are compatible; the aggregate's context is then the tightest one that covers theirs.
   */
  lemma {:induction false} AggregateExact(ms: seq<UpdateState>)
    ensures AggregateAll(ms).Some? <==> ms != [] && Chained(ms) && Compatible(ms)
    ensures AggregateAll(ms).Some? ==> Covers(ms, AggregateAll(ms).value.context)
  {
    if |ms| == 1 {
      if ms[0].context.Within? { assert Timed(ms, 0); }
    } else if |ms| > 1 {
      var front, m := ms[..|ms| - 1], ms[|ms| - 1];
      AggregateExact(front);
      assert ms == front + [m];
      ChainedMore(front, m);
      if AggregateAll(front).Some? {
        AggregateMore(front, m);
      } else {
        CompatibleFront(front, m);
      }
    }
  }

  lemma AggregateMore(front: seq<UpdateState>, m: UpdateState)
    requires front != [] && AggregateAll(front).Some? && Compatible(front)
    requires Covers(front, AggregateAll(front).value.context)
    ensures var r := Join(AggregateAll(front), Some(m));
            && (r.Some? <==> Continues(front[|front| - 1], m) && Compatible(front + [m]))
            && (r.Some? ==> Covers(front + [m], r.value.context))
  {
    var a := AggregateAll(front).value;
    AggregateEnds(front);
    LinkedIsContinues(a, m);
    CompatibleWith(front, m, a.context);
    if AggregateContexts(a.context, m.context).Some? { CoversMore(front, m, a.context); }
  }

  lemma CompatibleFront(front: seq<UpdateState>, m: UpdateState)
    ensures Compatible(front + [m]) ==> Compatible(front)
  {
    var all := front + [m];
    if Compatible(all) {
      forall i, j | Timed(front, i) && Timed(front, j)
        ensures SamePeriod(front[i].context.period, front[j].context.period)
      {
        assert Timed(all, i) && Timed(all, j) && all[i] == front[i] && all[j] == front[j];
      }
    }
  }

  // ---------------------------------------------------------------------------------------
  // Context soundness

  /** The end of the context's trusting period is a representable time. */
  predicate PeriodEndFits(c: Context) {
    c.Within? ==> c.period.trustedStateTime + c.period.trustingPeriod <= MAX_UNIX_TIMESTAMP_NANOS
  }

  lemma PairSound(a: Context, b: Context, now: Time)
    requires AggregateContexts(a, b).Some?
    ensures var c := AggregateContexts(a, b).value;
            && (ContextValid(a, now) && ContextValid(b, now) ==> ContextValid(c, now))
            && (PeriodEndFits(a) && PeriodEndFits(b) ==>
                  PeriodEndFits(c) && (ContextValid(c, now) ==> ContextValid(a, now) && ContextValid(b, now)))
  {
  }

  /** If every context is valid at a time, so is the aggregate's. */
  lemma {:induction false} AggregateSound(ms: seq<UpdateState>, now: Time)
    requires AggregateAll(ms).Some?
    requires forall i :: 0 <= i < |ms| ==> ContextValid(ms[i].context, now)
    ensures ContextValid(AggregateAll(ms).value.context, now)
  {
    if |ms| > 1 {
      var front := ms[..|ms| - 1];
      AggregateSound(front, now);
      PairSound(AggregateAll(front).value.context, ms[|ms| - 1].context, now);
    }
  }

  /** When the aggregate is valid, its parts all are exactly if no trusting period overruns the calendar. */
  lemma {:induction false} AggregateComplete(ms: seq<UpdateState>, now: Time)
    requires AggregateAll(ms).Some? && ContextValid(AggregateAll(ms).value.context, now)
    ensures (forall i :: 0 <= i < |ms| ==> ContextValid(ms[i].context, now))
       <==> (forall i :: 0 <= i < |ms| ==> PeriodEndFits(ms[i].context))
  {
    if forall i :: 0 <= i < |ms| ==> PeriodEndFits(ms[i].context) { PartsValid(ms, now); }
  }

  lemma {:induction false} PartsValid(ms: seq<UpdateState>, now: Time)
    requires AggregateAll(ms).Some? && forall i :: 0 <= i < |ms| ==> PeriodEndFits(ms[i].context)
    ensures PeriodEndFits(AggregateAll(ms).value.context)
    ensures ContextValid(AggregateAll(ms).value.context, now) ==>
              forall i :: 0 <= i < |ms| ==> ContextValid(ms[i].context, now)
  {
    if |ms| > 1 {
      var front := ms[..|ms| - 1];
      PartsValid(front, now);
      PairSound(AggregateAll(front).value.context, ms[|ms| - 1].context, now);
      assert forall i :: 0 <= i < |front| ==> front[i] == ms[i];
    }
  }

  /** The overrun is real: an aggregate can be valid although one of its parts is not. */
  lemma InvalidPartHidden()
    ensures exists a: Context, b: Context, now: Time ::
              && AggregateContexts(a, b).Some? && ContextValid(AggregateContexts(a, b).value, now)
              && !ContextValid(b, now)
  {
    var a := Within(TrustingPeriod(10, 1, 0, 0));
    var b := Within(TrustingPeriod(10, 1, 0, MAX_UNIX_TIMESTAMP_NANOS));
    assert ContextValid(AggregateContexts(a, b).value, 0) && !ContextValid(b, 0);
  }
}
