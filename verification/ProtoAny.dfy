/** The protobuf encoding of `Any` (a type URL and a value, both length-delimited) and its decoding. */
module ProtoAny {
  import opened Types

  /** Well-formed UTF-8, as `String` guarantees (RFC 3629, section 4). */
  predicate ValidUtf8(s: Bytes) {
    if s == [] then true
    else if s[0] < 0x80 then ValidUtf8(s[1..])
    else if 0xC2 <= s[0] < 0xE0 then |s| >= 2 && Tail(s[1]) && ValidUtf8(s[2..])
    else if 0xE0 <= s[0] < 0xF0 then
      && |s| >= 3 && Tail(s[1]) && Tail(s[2])
      && (s[0] == 0xE0 ==> s[1] >= 0xA0) && (s[0] == 0xED ==> s[1] < 0xA0)
      && ValidUtf8(s[3..])
    else
      && 0xF0 <= s[0] < 0xF5 && |s| >= 4 && Tail(s[1]) && Tail(s[2]) && Tail(s[3])
      && (s[0] == 0xF0 ==> s[1] >= 0x90) && (s[0] == 0xF4 ==> s[1] < 0x90)
      && ValidUtf8(s[4..])
  }

  predicate Tail(b: Byte) { 0x80 <= b < 0xC0 }

  /** A `String`, as its UTF-8 bytes. */
  type Str = s: Bytes | ValidUtf8(s)

  datatype AnyRec = Any(typeUrl: Bytes, value: Bytes)

  /** The values a program can hold: a well-formed URL, and buffers whose length is a 64-bit number. */
  type Any = a: AnyRec |
    ValidUtf8(a.typeUrl) && |a.typeUrl| < 0x1_0000_0000_0000_0000 && |a.value| < 0x1_0000_0000_0000_0000
    witness AnyRec.Any([], [])

  function EncVarint(n: nat): (b: Bytes)
    ensures |b| >= 1
  {
    if n < 128 then [n] else [n % 128 + 128] + EncVarint(n / 128)
  }

  /** Reads a varint of at most `budget` bytes; returns its value and its length. */
  function DecVarint(b: Bytes, budget: nat): (r: Option<(nat, nat)>)
    ensures r.Some? ==> 1 <= r.value.1 <= |b|
  {
    if b == [] || budget == 0 then None
    else if b[0] < 128 then Some((b[0], 1))
    else
      match DecVarint(b[1..], budget - 1)
      case None => None
      case Some((n, k)) => Some((b[0] - 128 + 128 * n, k + 1))
  }

  /** A 64-bit varint takes at most ten bytes. */
  function DecLength(b: Bytes): (r: Option<(U64, nat)>)
    ensures r.Some? ==> 1 <= r.value.1 <= |b|
  {
    match DecVarint(b, 10)
    case None => None
    case Some((n, k)) => if n < 0x1_0000_0000_0000_0000 then Some((n, k)) else None
  }

  const URL_TAG: Byte := 0x0A
  const VALUE_TAG: Byte := 0x12

  /** Empty fields are left out. */
  function EncField(tag: Byte, b: Bytes): Bytes {
    if b == [] then [] else [tag] + EncVarint(|b|) + b
  }

  function EncAny(a: Any): Bytes {
    EncField(URL_TAG, a.typeUrl) + EncField(VALUE_TAG, a.value)
  }

  /** Merges the fields of `b` into `acc`: any order, the last occurrence of a field wins. */
  function MergeAny(b: Bytes, acc: Any): Option<Any>
    decreases |b|
  {
    if b == [] then Some(acc)
    else
      match DecLength(b[1..])
      case None => None
      case Some((n, k)) =>
        if |b| < 1 + k + n then None
        else
          var data, rest := b[1 + k..1 + k + n], b[1 + k + n..];
          if b[0] == URL_TAG then
            if ValidUtf8(data) then MergeAny(rest, AnyRec.Any(data, acc.value)) else None
          else if b[0] == VALUE_TAG then MergeAny(rest, AnyRec.Any(acc.typeUrl, data))
          else None
  }

  function DecAny(b: Bytes): Option<Any> { MergeAny(b, AnyRec.Any([], [])) }

  // ---------------------------------------------------------------------------------------

  lemma {:induction false} VarintRoundTrip(n: nat, budget: nat, rest: Bytes)
    requires budget > 0 && n < Pow128(budget)
    ensures DecVarint(EncVarint(n) + rest, budget) == Some((n, |EncVarint(n)|))
  {
    var b := EncVarint(n) + rest;
    if n >= 128 {
      assert b[1..] == EncVarint(n / 128) + rest;
      VarintRoundTrip(n / 128, budget - 1, rest);
    }
  }

  function Pow128(k: nat): nat { if k == 0 then 1 else 128 * Pow128(k - 1) }

  lemma LengthRoundTrip(n: U64, rest: Bytes)
    ensures DecLength(EncVarint(n) + rest) == Some((n, |EncVarint(n)|))
  {
    VarintRoundTrip(n, 10, rest);
  }

  lemma FieldParts(tag: Byte, n: Bytes, data: Bytes, rest: Bytes)
    ensures var b := [tag] + n + data + rest;
            && b[1..] == n + (data + rest)
            && b[1 + |n|..1 + |n| + |data|] == data
            && b[1 + |n| + |data|..] == rest
  {
  }

  /** A field standing first is merged first. */
  lemma MergeField(tag: Byte, data: Bytes, rest: Bytes, acc: Any)
    requires (tag == URL_TAG && ValidUtf8(data)) || tag == VALUE_TAG
    requires data != [] && |data| < 0x1_0000_0000_0000_0000
    ensures MergeAny(EncField(tag, data) + rest, acc)
         == MergeAny(rest, if tag == URL_TAG then AnyRec.Any(data, acc.value) else AnyRec.Any(acc.typeUrl, data))
  {
    FieldParts(tag, EncVarint(|data|), data, rest);
    LengthRoundTrip(|data|, data + rest);
  }

  /** Decoding the encoding of an `Any` gives it back. */
  lemma AnyRoundTrip(a: Any)
    ensures DecAny(EncAny(a)) == Some(a)
  {
    var v := EncField(VALUE_TAG, a.value);
    if a.value != [] {
      MergeField(VALUE_TAG, a.value, [], AnyRec.Any(a.typeUrl, []));
      assert v + [] == v;
    }
    if a.typeUrl != [] { MergeField(URL_TAG, a.typeUrl, v, AnyRec.Any([], [])); } else { assert EncAny(a) == v; }
  }

  lemma AnyInjective(a: Any, b: Any)
    requires EncAny(a) == EncAny(b)
    ensures a == b
  {
    AnyRoundTrip(a);
    AnyRoundTrip(b);
  }

  // ---------------------------------------------------------------------------------------
  // Layout

  /** Seven bits a byte, least significant first. */
  function LittleEndian(b: Bytes): nat { if b == [] then 0 else b[0] % 128 + 128 * LittleEndian(b[1..]) }

  /** A varint is the shortest base-128 form of its number; all bytes but the last have the high bit set. */
  lemma {:induction false} VarintMeans(n: nat)
    ensures var b := EncVarint(n);
            && LittleEndian(b) == n
            && (forall i :: 0 <= i < |b| ==> (b[i] >= 128 <==> i < |b| - 1))
            && (|b| > 1 ==> b[|b| - 1] != 0)
  {
    var b := EncVarint(n);
    if n < 128 {
      assert b[1..] == [];
    } else {
      VarintMeans(n / 128);
      assert b[1..] == EncVarint(n / 128);
    }
  }

  /** The bytes of an `Any` with short fields: tag 10 and the URL, tag 18 and the value. */
  lemma AnyLayout(a: Any)
    requires 0 < |a.typeUrl| < 128 && 0 < |a.value| < 128
    ensures EncAny(a) == [0x0A, |a.typeUrl|] + a.typeUrl + ([0x12, |a.value|] + a.value)
  {
  }

  lemma LongLength()
    ensures EncVarint(300) == [0xAC, 0x02]
  {
    assert EncVarint(2) == [2];
  }
}
