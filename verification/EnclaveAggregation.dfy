/** The enclave's `aggregate_messages` command: signed update messages in, one signed message out. */
module EnclaveAggregation {
  import opened Types
  import opened Messages
  import opened MessageCodec

  /** A decoded update message whose signature and context hold now. */
  function Checked<Key>(c: Crypto<Key>, key: Key, now: Time, message: Bytes, signature: Bytes): Option<UpdateState> {
    match FromBytes(message)
    case Some(Update(m)) =>
      if c.recover(ToBytes(Update(m)), signature) == Some(c.address(key)) && ContextValid(m.context, now) then Some(m)
      else None
    case _ => None
  }

  /** All results, or none if one of them is missing. */
  function Collect<T>(rs: seq<Option<T>>): (r: Option<seq<T>>)
    ensures r.Some? <==> forall i :: 0 <= i < |rs| ==> rs[i].Some?
    ensures r.Some? ==> |r.value| == |rs| && forall i :: 0 <= i < |rs| ==> rs[i] == Some(r.value[i])
  {
    if forall i :: 0 <= i < |rs| ==> rs[i].Some?
    then Some(seq(|rs|, i requires 0 <= i < |rs| && rs[i].Some? => rs[i].value)) else None
  }

  ghost function CheckedAll<Key>(c: Crypto<Key>, key: Key, now: Time, messages: seq<Bytes>, signatures: seq<Bytes>):
    (rs: seq<Option<UpdateState>>)
    requires |messages| == |signatures|
    ensures |rs| == |messages|
    ensures forall i :: 0 <= i < |rs| ==> rs[i] == Checked(c, key, now, messages[i], signatures[i])
  {
    seq(|messages|, i requires 0 <= i < |messages| == |signatures| => Checked(c, key, now, messages[i], signatures[i]))
  }

  /** `aggregate_messages`: at least two messages, as many signatures, and the aggregate signed. */
  ghost function AggregateSigned<Key>(c: Crypto<Key>, key: Key, now: Time,
                                      messages: seq<Bytes>, signatures: seq<Bytes>): Option<(Bytes, Bytes)>
  {
    if |messages| < 2 || |messages| != |signatures| then None
    else
      match Collect(CheckedAll(c, key, now, messages, signatures))
      case None => None
      case Some(ms) =>
        match AggregateAll(ms)
        case None => None
        case Some(a) =>
          if Validate(Update(a)) then Some((ToBytes(Update(a)), c.sign(key, ToBytes(Update(a))))) else None
  }

  lemma CheckedContext<Key>(c: Crypto<Key>, key: Key, now: Time, message: Bytes, signature: Bytes)
    requires Checked(c, key, now, message, signature).Some?
    ensures ContextValid(Checked(c, key, now, message, signature).value.context, now)
  {
  }

  /** The enclave never signs an aggregate whose context is invalid at its own time. */
  lemma NeverSignsInvalid<Key>(c: Crypto<Key>, key: Key, now: Time, messages: seq<Bytes>, signatures: seq<Bytes>)
    requires AggregateSigned(c, key, now, messages, signatures).Some?
    ensures exists a :: && AggregateSigned(c, key, now, messages, signatures).value.0 == ToBytes(Update(a))
                        && ValidateUpdate(a) && ContextValid(a.context, now)
  {
    var rs := CheckedAll(c, key, now, messages, signatures);
    var ms := Collect(rs).value;
    forall i | 0 <= i < |ms| ensures ContextValid(ms[i].context, now) {
      assert rs[i] == Some(ms[i]);
      CheckedContext(c, key, now, messages[i], signatures[i]);
    }
    AggregateSound(ms, now);
    var a := AggregateAll(ms).value;
    assert AggregateSigned(c, key, now, messages, signatures).value.0 == ToBytes(Update(a));
  }

  // ---------------------------------------------------------------------------------------
  // Exactly when it signs

  /** The bytes are an update message that this enclave signed and whose context holds now. */
  ghost predicate Genuine<Key>(c: Crypto<Key>, key: Key, now: Time, message: Bytes, signature: Bytes, m: UpdateState) {
    && FromBytes(message) == Some(Update(m))
    && c.recover(ToBytes(Update(m)), signature) == Some(c.address(key))
    && ContextValid(m.context, now)
  }

  ghost predicate AllGenuine<Key>(c: Crypto<Key>, key: Key, now: Time, messages: seq<Bytes>, signatures: seq<Bytes>,
                                  ms: seq<UpdateState>)
  {
    && |messages| == |signatures| == |ms|
    && forall i :: 0 <= i < |ms| ==> Genuine(c, key, now, messages[i], signatures[i], ms[i])
  }

  lemma CheckedIsGenuine<Key>(c: Crypto<Key>, key: Key, now: Time, message: Bytes, signature: Bytes, m: UpdateState)
    ensures Checked(c, key, now, message, signature) == Some(m) <==> Genuine(c, key, now, message, signature, m)
  {
  }

  lemma CollectsGenuine<Key>(c: Crypto<Key>, key: Key, now: Time, messages: seq<Bytes>, signatures: seq<Bytes>,
                             ms: seq<UpdateState>)
    requires |messages| == |signatures|
    ensures Collect(CheckedAll(c, key, now, messages, signatures)) == Some(ms)
       <==> AllGenuine(c, key, now, messages, signatures, ms)
  {
    var rs := CheckedAll(c, key, now, messages, signatures);
    forall i | 0 <= i < |rs| && i < |ms|
      ensures rs[i] == Some(ms[i]) <==> Genuine(c, key, now, messages[i], signatures[i], ms[i])
    {
      CheckedIsGenuine(c, key, now, messages[i], signatures[i], ms[i]);
    }
    CollectIs(rs, ms);
  }

  lemma CollectIs<T>(rs: seq<Option<T>>, xs: seq<T>)
    ensures Collect(rs) == Some(xs) <==> |xs| == |rs| && forall i :: 0 <= i < |rs| ==> rs[i] == Some(xs[i])
  {
    if |xs| == |rs| && forall i :: 0 <= i < |rs| ==> rs[i] == Some(xs[i]) { assert Collect(rs).value == xs; }
  }

  /** What the parts must be for the command to succeed. */
  ghost predicate Aggregatable<Key>(c: Crypto<Key>, key: Key, now: Time, messages: seq<Bytes>, signatures: seq<Bytes>,
                                    ms: seq<UpdateState>)
  {
    && |ms| >= 2 && AllGenuine(c, key, now, messages, signatures, ms)
    && AggregateAll(ms).Some? && ValidateUpdate(AggregateAll(ms).value)
  }

  lemma AggregateSignedIs<Key>(c: Crypto<Key>, key: Key, now: Time, messages: seq<Bytes>, signatures: seq<Bytes>,
                               ms: seq<UpdateState>)
    requires Aggregatable(c, key, now, messages, signatures, ms)
    ensures var a := Update(AggregateAll(ms).value);
            AggregateSigned(c, key, now, messages, signatures) == Some((ToBytes(a), c.sign(key, ToBytes(a))))
  {
    CollectsGenuine(c, key, now, messages, signatures, ms);
  }

  /**
   Whatever bytes are handed in: the command succeeds if and only if there are at least two messages, as
   many signatures, and every message decodes to an update that this enclave signed and whose context
   holds now, the updates aggregating to a valid message; then that aggregate, and nothing else, is signed.
   */
  lemma SignsExactly<Key>(c: Crypto<Key>, key: Key, now: Time, messages: seq<Bytes>, signatures: seq<Bytes>)
    ensures var r := AggregateSigned(c, key, now, messages, signatures);
            && (r.Some? <==> exists ms :: Aggregatable(c, key, now, messages, signatures, ms))
            && (forall ms :: Aggregatable(c, key, now, messages, signatures, ms) ==>
                  var a := Update(AggregateAll(ms).value); r == Some((ToBytes(a), c.sign(key, ToBytes(a)))))
  {
    var r := AggregateSigned(c, key, now, messages, signatures);
    forall ms | Aggregatable(c, key, now, messages, signatures, ms)
      ensures var a := Update(AggregateAll(ms).value); r == Some((ToBytes(a), c.sign(key, ToBytes(a))))
    {
      AggregateSignedIs(c, key, now, messages, signatures, ms);
    }
    if r.Some? {
      var ms := Collect(CheckedAll(c, key, now, messages, signatures)).value;
      CollectsGenuine(c, key, now, messages, signatures, ms);
      assert Aggregatable(c, key, now, messages, signatures, ms);
    }
  }

  ghost predicate SignedParts<Key>(c: Crypto<Key>, key: Key, ms: seq<UpdateState>,
                                   messages: seq<Bytes>, signatures: seq<Bytes>)
  {
    && |messages| == |signatures| == |ms|
    && forall i :: 0 <= i < |ms| ==>
         Fits(Update(ms[i])) && messages[i] == ToBytes(Update(ms[i])) && signatures[i] == c.sign(key, messages[i])
  }

  ghost function Normalized(ms: seq<UpdateState>): (r: seq<UpdateState>)
    ensures |r| == |ms| && forall i :: 0 <= i < |ms| ==> r[i] == NormalizeUpdate(ms[i])
  {
    seq(|ms|, i requires 0 <= i < |ms| => NormalizeUpdate(ms[i]))
  }

  lemma CheckedSigned<Key(!new)>(c: Crypto<Key>, key: Key, now: Time, m: UpdateState)
    requires Sound(c) && Fits(Update(m))
    ensures var bz := ToBytes(Update(m));
            Checked(c, key, now, bz, c.sign(key, bz)) ==
            if ContextValid(m.context, now) then Some(NormalizeUpdate(m)) else None
  {
    DecodeEncode(Update(m));
    SignatureSurvivesTransport(c, key, Update(m));
  }

  /** What the enclave signed itself it accepts back, decoded, while the contexts hold. */
  lemma CollectSigned<Key(!new)>(c: Crypto<Key>, key: Key, now: Time, ms: seq<UpdateState>,
                                 messages: seq<Bytes>, signatures: seq<Bytes>)
    requires Sound(c) && SignedParts(c, key, ms, messages, signatures)
    ensures Collect(CheckedAll(c, key, now, messages, signatures))
         == if forall i :: 0 <= i < |ms| ==> ContextValid(ms[i].context, now) then Some(Normalized(ms)) else None
  {
    var rs := CheckedAll(c, key, now, messages, signatures);
    forall i | 0 <= i < |ms|
      ensures rs[i] == if ContextValid(ms[i].context, now) then Some(Normalized(ms)[i]) else None
    {
      CheckedSigned(c, key, now, ms[i]);
    }
    CollectConditional(rs, Normalized(ms), seq(|ms|, i requires 0 <= i < |ms| => ContextValid(ms[i].context, now)));
  }

  lemma CollectConditional<T>(rs: seq<Option<T>>, xs: seq<T>, ok: seq<bool>)
    requires |rs| == |xs| == |ok| && forall i :: 0 <= i < |rs| ==> rs[i] == if ok[i] then Some(xs[i]) else None
    ensures Collect(rs) == if forall i :: 0 <= i < |ok| ==> ok[i] then Some(xs) else None
  {
    if i :| 0 <= i < |ok| && !ok[i] {
      assert rs[i].None?;
    } else {
      assert Collect(rs).value == xs;
    }
  }

  /** The command on messages this enclave signed succeeds exactly if their contexts hold now and the
      decoded messages aggregate to a valid message; that aggregate is what it signs. */
  lemma AggregatesOwnMessages<Key(!new)>(c: Crypto<Key>, key: Key, now: Time, ms: seq<UpdateState>,
                                         messages: seq<Bytes>, signatures: seq<Bytes>)
    requires Sound(c) && SignedParts(c, key, ms, messages, signatures) && |ms| >= 2
    ensures var r, a := AggregateSigned(c, key, now, messages, signatures), AggregateAll(Normalized(ms));
            && (r.Some? <==>
                  && (forall i :: 0 <= i < |ms| ==> ContextValid(ms[i].context, now))
                  && a.Some? && ValidateUpdate(a.value))
            && (r.Some? ==> r.value == (ToBytes(Update(a.value)), c.sign(key, ToBytes(Update(a.value)))))
  {
    CollectSigned(c, key, now, ms, messages, signatures);
  }
}
