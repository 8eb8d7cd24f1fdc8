/** The bytes hashed into a state identifier, and why they determine both states. */
module StateIdGen {
  import opened Types
  import opened ProtoAny

  /** The first encoding is appended behind a zero-filled buffer, the second overwrites its middle. */
  ghost function Preimage(client: Bytes, consensus: Bytes): Bytes {
    Zeros(|client|) + consensus + client
  }

  /** `gen_state_id_from_any`, up to the hash. */
  method BuildPreimage(client: Any, consensus: Any) returns (buf: Bytes)
    ensures buf == Preimage(EncAny(client), EncAny(consensus))
  {
    var c, s := EncAny(client), EncAny(consensus);
    buf := Zeros(|c| + |s|);
    buf := buf + c;
    var i := 0;
    while i < |s|
      invariant 0 <= i <= |s|
      invariant buf == Zeros(|c|) + s[..i] + Zeros(|s| - i) + c
    {
      buf := buf[|c| + i := s[i]];
      i := i + 1;
    }
  }

  ghost function GenStateId(sha256: Bytes -> Bytes32, client: Any, consensus: Any): StateId {
    sha256(Preimage(EncAny(client), EncAny(consensus)))
  }

  /** Equal hashed bytes come from equal pairs of states. */
  lemma PreimageInjective(client1: Any, consensus1: Any, client2: Any, consensus2: Any)
    requires Preimage(EncAny(client1), EncAny(consensus1)) == Preimage(EncAny(client2), EncAny(consensus2))
    ensures client1 == client2 && consensus1 == consensus2
  {
    var c1, s1, c2, s2 := EncAny(client1), EncAny(consensus1), EncAny(client2), EncAny(consensus2);
    ZeroRunLength(c1, s1, c2, s2);
    ZeroRunLength(c2, s2, c1, s1);
    Parts(c1, s1);
    Parts(c2, s2);
    AnyInjective(client1, client2);
    AnyInjective(consensus1, consensus2);
  }

  /** As many zeros as the client state has bytes, then the consensus state, then the client state. */
  lemma Parts(c: Bytes, s: Bytes)
    ensures var p := Preimage(c, s);
            && |p| == 2 * |c| + |s| && (forall i :: 0 <= i < |c| ==> p[i] == 0)
            && p[|c|..|c| + |s|] == s && p[|c| + |s|..] == c
  {
  }

  /** An encoding never starts with a zero byte, so the run of zeros has exactly the client's length. */
  lemma ZeroRunLength(c1: Bytes, s1: Bytes, c2: Bytes, s2: Bytes)
    requires c1 != [] ==> c1[0] != 0
    requires s1 != [] ==> s1[0] != 0
    requires Preimage(c1, s1) == Preimage(c2, s2)
    ensures |c2| <= |c1|
  {
    var p := Preimage(c1, s1);
    assert forall i :: 0 <= i < |c2| ==> p[i] == 0 by { assert p == Zeros(|c2|) + (s2 + c2); }
    if s1 + c1 != [] { assert p[|c1|] == (s1 + c1)[0] != 0; }
  }
}
