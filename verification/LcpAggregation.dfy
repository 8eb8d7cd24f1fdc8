/** An aggregated message means the same to the LCP client as its parts, applied one by one. */
module LcpAggregation {
  import opened Types
  import opened Messages
  import opened MessageCodec
  import opened LcpClient

  datatype Signed = Signed(message: UpdateState, signer: Address, signature: Bytes)

  /** `views` are the views before, between and after the messages, applied one by one. */
  ghost predicate Applied(views: seq<View>, us: seq<Signed>) {
    && |views| == |us| + 1
    && (forall i :: 0 <= i < |views| ==> views[i].state.Some?)
    && (forall i :: 0 <= i < |us| ==> views[i + 1] == AfterUpdate(views[i], us[i].message))
  }

  /** Each message is accepted in the view it is applied to, all at the host time `now`. */
  ghost predicate EachAccepted<Key>(c: Crypto<Key>, views: seq<View>, now: Time, us: seq<Signed>)
    requires |views| == |us| + 1
  {
    forall i :: 0 <= i < |us| ==> UpdateAccepted(c, views[i], now, us[i].message, us[i].signer, us[i].signature)
  }

  ghost function Parts(us: seq<Signed>): (ms: seq<UpdateState>)
    ensures |ms| == |us| && forall i :: 0 <= i < |us| ==> ms[i] == us[i].message
  {
    seq(|us|, i requires 0 <= i < |us| => us[i].message)
  }

  /** A post height that only the messages before the last one write. */
  ghost predicate Intermediate(us: seq<Signed>, h: Height)
    requires us != []
  {
    h != us[|us| - 1].message.postHeight && Written(us, |us|, h)
  }

  ghost predicate Written(us: seq<Signed>, k: nat, h: Height)
    requires k <= |us|
  {
    exists i :: 0 <= i < k && us[i].message.postHeight == h
  }

  /** No part goes above both the client's latest height and the last post height. */
  ghost predicate NoOvershoot(s: ClientState, us: seq<Signed>)
    requires us != []
  {
    forall i :: 0 <= i < |us| ==>
      !MaxHeight(s.latestHeight, us[|us| - 1].message.postHeight).Less(us[i].message.postHeight)
  }

  ghost predicate NonDecreasing(us: seq<Signed>) {
    forall i, j :: 0 <= i <= j < |us| ==> !us[j].message.postHeight.Less(us[i].message.postHeight)
  }

  ghost predicate SameEntry(v: View, w: View, h: Height) {
    (h in v.consensus <==> h in w.consensus) && (h in v.consensus ==> v.consensus[h] == w.consensus[h])
  }

  /** The first `k` messages write exactly their post heights, and change of the client state only the height. */
  lemma {:induction false} PrefixEffect(views: seq<View>, us: seq<Signed>, k: nat)
    requires Applied(views, us) && k <= |us|
    ensures views[k].keys == views[0].keys
    ensures var s, t := views[0].state.value, views[k].state.value; t == s.(latestHeight := t.latestHeight)
    ensures forall h :: !Written(us, k, h) ==> SameEntry(views[0], views[k], h)
  {
    if k > 0 {
      PrefixEffect(views, us, k - 1);
      assert views[k] == AfterUpdate(views[k - 1], us[k - 1].message);
      forall h | !Written(us, k, h) ensures SameEntry(views[0], views[k], h) {
        assert !Written(us, k - 1, h) && us[k - 1].message.postHeight != h;
      }
    }
  }

  /** The latest height becomes the largest of the old one and the post heights. */
  lemma {:induction false} PrefixHeight(views: seq<View>, us: seq<Signed>, k: nat)
    requires Applied(views, us) && k <= |us|
    ensures var old', top := views[0].state.value.latestHeight, views[k].state.value.latestHeight;
            && !top.Less(old')
            && (forall i :: 0 <= i < k ==> !top.Less(us[i].message.postHeight))
            && (top == old' || Written(us, k, top))
  {
    if k > 0 {
      PrefixHeight(views, us, k - 1);
      var u, p := views[k - 1].state.value.latestHeight, us[k - 1].message.postHeight;
      assert views[k].state.value.latestHeight == MaxHeight(u, p);
      if Written(us, k - 1, u) {
        var i :| 0 <= i < k - 1 && us[i].message.postHeight == u;
        assert Written(us, k, u);
      }
      assert us[k - 1].message.postHeight == p && Written(us, k, p);
    }
  }

  lemma {:induction false} FirstEmits(ms: seq<UpdateState>)
    requires ms != [] && ms[0].emittedStates != []
    ensures AllEmitted(ms) != []
  {
    if |ms| > 1 { FirstEmits(ms[..|ms| - 1]); }
  }

  /** If the parts are accepted one by one, so is their aggregate when a registered key signed it. */
  lemma AggregateAccepted<Key>(c: Crypto<Key>, views: seq<View>, now: Time, us: seq<Signed>,
                               signer: Address, signature: Bytes)
    requires us != [] && Applied(views, us) && EachAccepted(c, views, now, us)
    requires AggregateAll(Parts(us)).Some?
    requires SignedBy(c, views[0], Update(AggregateAll(Parts(us)).value), signer, signature)
    ensures UpdateAccepted(c, views[0], now, AggregateAll(Parts(us)).value, signer, signature)
  {
    AggregateEnds(Parts(us));
    if us[0].message.emittedStates != [] { FirstEmits(Parts(us)); }
    assert forall i :: 0 <= i < |us| ==> ContextValid(Parts(us)[i].context, now);
    AggregateSound(Parts(us), now);
    assert UpdateAccepted(c, views[0], now, us[0].message, us[0].signer, us[0].signature);
  }

  /**
   The aggregate leaves the same keys, the same entry at the final height and the same entries
   everywhere except at intermediate heights. The client states are equal exactly if no part
   overshoots both the latest and the final height.
   */
  lemma AggregateFaithful(views: seq<View>, us: seq<Signed>)
    requires us != [] && Applied(views, us) && AggregateAll(Parts(us)).Some?
    ensures var agg, one := AggregateAll(Parts(us)).value, views[|us|];
            var all := AfterUpdate(views[0], agg);
            && all.keys == one.keys
            && agg.postHeight in one.consensus && all.consensus[agg.postHeight] == one.consensus[agg.postHeight]
            && (forall h :: !Intermediate(us, h) ==> SameEntry(one, all, h))
            && (all.state == one.state <==> NoOvershoot(views[0].state.value, us))
  {
    var n := |us| - 1;
    AggregateEnds(Parts(us));
    PrefixEffect(views, us, |us|);
    assert views[|us|] == AfterUpdate(views[n], us[n].message);
    SameHeightIff(views, us);
  }

  lemma SameHeightIff(views: seq<View>, us: seq<Signed>)
    requires us != [] && Applied(views, us)
    ensures views[|us|].state.value.latestHeight
              == MaxHeight(views[0].state.value.latestHeight, us[|us| - 1].message.postHeight)
       <==> NoOvershoot(views[0].state.value, us)
  {
    PrefixHeight(views, us, |us|);
  }

  /** Messages with nondecreasing post heights never overshoot. */
  lemma NonDecreasingNoOvershoot(s: ClientState, us: seq<Signed>)
    requires us != [] && NonDecreasing(us)
    ensures NoOvershoot(s, us)
  {
  }

  /**
   Aggregation preserves meaning: if linked messages with nondecreasing post heights are accepted
   one by one at one host time, their aggregate, signed by a registered key, is accepted then too,
   and leaves the same client state, the same keys, the same consensus state at the final height
   and the same entries everywhere except at intermediate heights.
   */
  lemma AggregationPreservesMeaning<Key>(c: Crypto<Key>, views: seq<View>, now: Time, us: seq<Signed>,
                                         signer: Address, signature: Bytes)
    requires us != [] && Applied(views, us) && EachAccepted(c, views, now, us) && NonDecreasing(us)
    requires AggregateAll(Parts(us)).Some?
    requires SignedBy(c, views[0], Update(AggregateAll(Parts(us)).value), signer, signature)
    ensures var agg, one := AggregateAll(Parts(us)).value, views[|us|];
            var all := Step(c, views[0], now, UpdateClient(Update(agg), signer, signature));
            && all.Some? && all.value.state == one.state && all.value.keys == one.keys
            && SameEntry(one, all.value, agg.postHeight)
            && (forall h :: !Intermediate(us, h) ==> SameEntry(one, all.value, h))
  {
    AggregateAccepted(c, views, now, us, signer, signature);
    NonDecreasingNoOvershoot(views[0].state.value, us);
    AggregateFaithful(views, us);
    var agg := AggregateAll(Parts(us)).value;
    assert Step(c, views[0], now, UpdateClient(Update(agg), signer, signature)) == Some(AfterUpdate(views[0], agg));
    assert !Intermediate(us, agg.postHeight) by { AggregateEnds(Parts(us)); }
  }

  /** The one-by-one views are those of the client's own steps. */
  lemma AppliedIsStepping<Key>(c: Crypto<Key>, views: seq<View>, now: Time, us: seq<Signed>, i: nat)
    requires Applied(views, us) && EachAccepted(c, views, now, us) && i < |us|
    ensures Step(c, views[i], now, UpdateClient(Update(us[i].message), us[i].signer, us[i].signature))
         == Some(views[i + 1])
  {
    assert views[i + 1] == AfterUpdate(views[i], us[i].message);
  }

  // ---------------------------------------------------------------------------------------
  // Overshooting is possible

  function Hop(from: nat, to: nat, id: StateId): UpdateState
    requires from < 10 && to < 10
  {
    UpdateState(Some(Height(0, from)), Some(id), Height(0, to), id, 0, Empty, [])
  }

  lemma HopAccepted<Key>(c: Crypto<Key>, v: View, from: nat, to: nat, id: StateId, a: Address, signature: Bytes)
    requires from < 10 && to < 10 && v.state.Some? && !v.state.value.frozen && !v.state.value.latestHeight.IsZero()
    requires StoredId(v, Height(0, from), id) && a in v.keys
    requires c.recover(ToBytes(Update(Hop(from, to, id))), signature) == Some(a)
    ensures UpdateAccepted(c, v, 0, Hop(from, to, id), a, signature)
  {
  }

  lemma HopsAggregate(id: StateId)
    ensures AggregateAll([Hop(1, 5, id), Hop(5, 3, id)]) == Some(Hop(1, 3, id))
  {
    var ms := [Hop(1, 5, id), Hop(5, 3, id)];
    assert ms[..1] == [Hop(1, 5, id)];
    assert AggregateAll(ms[..1]) == Some(Hop(1, 5, id));
    assert Aggregate(Hop(1, 5, id), Hop(5, 3, id)).value.emittedStates == [];
  }

  lemma HopEffect(v: View, from: nat, to: nat, id: StateId)
    requires from < 10 && to < 10 && v.state.Some?
    ensures var w := AfterUpdate(v, Hop(from, to, id));
            && w.keys == v.keys && StoredId(w, Height(0, to), id)
            && w.state == Some(v.state.value.(latestHeight := MaxHeight(v.state.value.latestHeight, Height(0, to))))
  {
  }

  /**
   A client at height 1 accepts a message from 1 to 5 and then one from 5 to 3. Their aggregate, from 1
   to 3, is accepted as well, but leaves the client at height 3 where the parts leave it at 5.
   */
  lemma OvershootDiffers<Key>(c: Crypto<Key>, v: View, id: StateId, a: Address, sig1: Bytes, sig2: Bytes, sig: Bytes)
    requires v.state.Some? && !v.state.value.frozen && v.state.value.latestHeight == Height(0, 1)
    requires StoredId(v, Height(0, 1), id) && a in v.keys
    requires c.recover(ToBytes(Update(Hop(1, 5, id))), sig1) == Some(a)
    requires c.recover(ToBytes(Update(Hop(5, 3, id))), sig2) == Some(a)
    requires c.recover(ToBytes(Update(Hop(1, 3, id))), sig) == Some(a)
    ensures var v1 := AfterUpdate(v, Hop(1, 5, id));
            var one, all := AfterUpdate(v1, Hop(5, 3, id)), AfterUpdate(v, Hop(1, 3, id));
            && AggregateAll([Hop(1, 5, id), Hop(5, 3, id)]) == Some(Hop(1, 3, id))
            && UpdateAccepted(c, v, 0, Hop(1, 5, id), a, sig1)
            && UpdateAccepted(c, v1, 0, Hop(5, 3, id), a, sig2)
            && UpdateAccepted(c, v, 0, Hop(1, 3, id), a, sig)
            && one.state.value.latestHeight == Height(0, 5) && all.state.value.latestHeight == Height(0, 3)
  {
    var v1 := AfterUpdate(v, Hop(1, 5, id));
    HopsAggregate(id);
    HopEffect(v, 1, 5, id);
    HopEffect(v1, 5, 3, id);
    HopEffect(v, 1, 3, id);
    HopAccepted(c, v, 1, 5, id, a, sig1);
    HopAccepted(c, v1, 5, 3, id, a, sig2);
    HopAccepted(c, v, 1, 3, id, a, sig);
  }
}
