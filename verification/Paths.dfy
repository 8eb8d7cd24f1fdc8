/** Store keys: identifiers, their rendering as paths, and why two different keys never collide. */
module Paths {
  import opened Types

  type ClientId = string

  predicate Special(c: char) { c in "._+-#[]<>" }

  /** ASCII letters and digits; every non-ASCII character is admitted too, a superset of what is allowed. */
  predicate Alphanumeric(c: char) {
    'a' <= c <= 'z' || 'A' <= c <= 'Z' || '0' <= c <= '9' || c as int >= 0x80
  }

  function Utf8Len(s: string): nat {
    if s == "" then 0
    else (var c := s[0] as int; if c < 0x80 then 1 else if c < 0x800 then 2 else if c < 0x1_0000 then 3 else 4)
         + Utf8Len(s[1..])
  }

  predicate ValidClientId(id: string) {
    && id != ""
    && '/' !in id
    && 9 <= Utf8Len(id) <= 64
    && forall i :: 0 <= i < |id| ==> Alphanumeric(id[i]) || Special(id[i])
  }

  function Digit(d: nat): char
    requires d < 10
  {
    '0' + d as char
  }

  function Decimal(n: nat): (s: string)
    ensures s != "" && forall i :: 0 <= i < |s| ==> '0' <= s[i] <= '9'
  {
    if n < 10 then [Digit(n)] else Decimal(n / 10) + [Digit(n % 10)]
  }

  function ParseDecimal(s: string): nat
    requires forall i :: 0 <= i < |s| ==> '0' <= s[i] <= '9'
  {
    if s == "" then 0 else 10 * ParseDecimal(s[..|s| - 1]) + (s[|s| - 1] - '0') as int
  }

  function HexDigit(d: nat): char
    requires d < 16
  {
    if d < 10 then '0' + d as char else 'a' + (d - 10) as char
  }

  function Hex(b: Bytes): (s: string)
    ensures |s| == 2 * |b|
  {
    if b == [] then "" else [HexDigit(b[0] / 16), HexDigit(b[0] % 16)] + Hex(b[1..])
  }

  datatype Key =
    | ClientType(id: ClientId)
    | ClientStateKey(id: ClientId)
    | ConsensusKey(id: ClientId, height: Height)
    | EnclaveKey(id: ClientId, address: Address)
    | ClientCounter

  function Suffix(k: Key): string
    requires !k.ClientCounter?
  {
    match k
    case ClientType(_) => "clientType"
    case ClientStateKey(_) => "clientState"
    case ConsensusKey(_, h) => "consensusStates/" + (Decimal(h.revision) + "-" + Decimal(h.height))
    case EnclaveKey(_, a) => "aux/enclave_keys/0x" + Hex(a)
  }

  function Render(k: Key): string {
    if k.ClientCounter? then "nextClientSequence" else "clients/" + (k.id + "/" + Suffix(k))
  }

  predicate ValidKey(k: Key) { k.ClientCounter? || ValidClientId(k.id) }

  /** The id of the `n`-th client, `{type}-{counter}`. */
  function GenClientId(clientType: string, counter: nat): string { clientType + "-" + Decimal(counter) }

  // ---------------------------------------------------------------------------------------

  lemma {:induction false} DecimalRoundTrip(n: nat)
    ensures ParseDecimal(Decimal(n)) == n
  {
    if n >= 10 {
      DecimalRoundTrip(n / 10);
      var s := Decimal(n);
      assert s[..|s| - 1] == Decimal(n / 10);
    }
  }

  lemma DecimalInjective(a: nat, b: nat)
    requires Decimal(a) == Decimal(b)
    ensures a == b
  {
    DecimalRoundTrip(a);
    DecimalRoundTrip(b);
  }

  lemma {:induction false} HexInjective(a: Bytes, b: Bytes)
    requires Hex(a) == Hex(b)
    ensures a == b
  {
    assert |a| == |b|;
    if a != [] {
      var s := Hex(a);
      assert s[0] == HexDigit(a[0] / 16) == HexDigit(b[0] / 16);
      assert s[1] == HexDigit(a[0] % 16) == HexDigit(b[0] % 16);
      assert s[2..] == Hex(a[1..]) == Hex(b[1..]);
      HexInjective(a[1..], b[1..]);
    }
  }

  /** A separator that does not occur in the first parts fixes where they end. */
  lemma SplitFirst(a1: string, b1: string, a2: string, b2: string, sep: char)
    requires sep !in a1 && sep !in a2 && a1 + [sep] + b1 == a2 + [sep] + b2
    ensures a1 == a2 && b1 == b2
  {
    var s := a1 + [sep] + b1;
    assert s[|a1|] == sep && s[|a2|] == sep;
    assert forall i :: 0 <= i < |a1| ==> s[i] == a1[i] != sep;
    assert forall i :: 0 <= i < |a2| ==> s[i] == a2[i] != sep;
    assert s[..|a1|] == a1 && s[..|a2|] == a2;
    assert s[|a1| + 1..] == b1 && s[|a2| + 1..] == b2;
  }

  /** A separator that does not occur in the last parts fixes where they start. */
  lemma SplitLast(a1: string, b1: string, a2: string, b2: string, sep: char)
    requires sep !in b1 && sep !in b2 && a1 + [sep] + b1 == a2 + [sep] + b2
    ensures a1 == a2 && b1 == b2
  {
    var s := a1 + [sep] + b1;
    assert s[|a1|] == sep && s[|a2|] == sep;
    assert forall i :: |a1| < i < |s| ==> s[i] == b1[i - |a1| - 1] != sep;
    assert forall i :: |a2| < i < |s| ==> s[i] == b2[i - |a2| - 1] != sep;
    assert s[..|a1|] == a1 && s[..|a2|] == a2;
    assert s[|a1| + 1..] == b1 && s[|a2| + 1..] == b2;
  }

  lemma StripPrefix(p: string, a: string, b: string)
    requires p + a == p + b
    ensures a == b
  {
    assert (p + a)[|p|..] == a && (p + b)[|p|..] == b;
  }

  lemma SuffixInjective(j: Key, k: Key)
    requires !j.ClientCounter? && !k.ClientCounter? && j.id == k.id && Suffix(j) == Suffix(k)
    ensures j == k
  {
    var s := Suffix(j);
    if j.ConsensusKey? {
      assert s[1] == 'o';
      assert k.ConsensusKey?;
      var p, q := j.height, k.height;
      StripPrefix("consensusStates/", Decimal(p.revision) + "-" + Decimal(p.height),
                  Decimal(q.revision) + "-" + Decimal(q.height));
      SplitFirst(Decimal(p.revision), Decimal(p.height), Decimal(q.revision), Decimal(q.height), '-');
      DecimalInjective(p.revision, q.revision);
      DecimalInjective(p.height, q.height);
    } else if j.EnclaveKey? {
      assert s[0] == 'a';
      assert k.EnclaveKey?;
      StripPrefix("aux/enclave_keys/0x", Hex(j.address), Hex(k.address));
      HexInjective(j.address, k.address);
    } else if j.ClientType? {
      assert s[1] == 'l' && s[6] == 'T';
    } else {
      assert s[1] == 'l' && s[6] == 'S';
    }
  }

  /** Different keys of validated clients have different paths. */
  lemma PathsNeverCollide(j: Key, k: Key)
    requires ValidKey(j) && ValidKey(k) && Render(j) == Render(k)
    ensures j == k
  {
    if j.ClientCounter? || k.ClientCounter? {
      assert Render(ClientCounter)[0] == 'n';
    } else {
      StripPrefix("clients/", j.id + "/" + Suffix(j), k.id + "/" + Suffix(k));
      SplitFirst(j.id, Suffix(j), k.id, Suffix(k), '/');
      SuffixInjective(j, k);
    }
  }

  /** Type and counter can be read back from a generated client id. */
  lemma ClientIdInjective(t1: string, n1: nat, t2: string, n2: nat)
    requires GenClientId(t1, n1) == GenClientId(t2, n2)
    ensures t1 == t2 && n1 == n2
  {
    SplitLast(t1, Decimal(n1), t2, Decimal(n2), '-');
    DecimalInjective(n1, n2);
  }

  // ---------------------------------------------------------------------------------------
  // What the identifiers and paths look like

  lemma {:induction false} AsciiLength(s: string)
    requires forall i :: 0 <= i < |s| ==> s[i] as int < 0x80
    ensures Utf8Len(s) == |s|
  {
    if s != "" { AsciiLength(s[1..]); }
  }

  /** An ASCII client id is 9 to 64 letters, digits or one of nine punctuation marks. */
  lemma AsciiClientId(id: string)
    requires forall i :: 0 <= i < |id| ==> id[i] as int < 0x80
    ensures ValidClientId(id) <==> 9 <= |id| <= 64 && forall i :: 0 <= i < |id| ==> IdChar(id[i])
  {
    AsciiLength(id);
  }

  predicate IdChar(c: char) {
    || 'a' <= c <= 'z' || 'A' <= c <= 'Z' || '0' <= c <= '9'
    || c == '.' || c == '_' || c == '+' || c == '-' || c == '#' || c == '[' || c == ']' || c == '<' || c == '>'
  }

  /** No leading zeros. */
  lemma {:induction false} DecimalCanonical(n: nat)
    ensures Decimal(n)[0] == '0' ==> n == 0
  {
    if n >= 10 { DecimalCanonical(n / 10); }
  }

  /** The paths of a client's entries. */
  lemma RenderedPaths(id: ClientId, h: Height)
    ensures Render(ClientType(id)) == "clients/" + id + "/clientType"
    ensures Render(ClientStateKey(id)) == "clients/" + id + "/clientState"
    ensures Render(ConsensusKey(id, h))
         == "clients/" + id + "/consensusStates/" + Decimal(h.revision) + "-" + Decimal(h.height)
  {
    var heights := Decimal(h.revision) + "-" + Decimal(h.height);
    Slashed("clients/", id, "clientType", "/clientType");
    Slashed("clients/", id, "clientState", "/clientState");
    Slashed("clients/", id, "consensusStates/" + heights, "/consensusStates/" + heights);
    Regroup("clients/" + id, "/consensusStates/", Decimal(h.revision), "-", Decimal(h.height));
  }

  lemma Slashed(p: string, id: string, suffix: string, slashed: string)
    requires slashed == "/" + suffix
    ensures p + (id + "/" + suffix) == p + id + slashed
  {
  }

  lemma Regroup(a: string, b: string, c: string, d: string, e: string)
    ensures a + (b + (c + d + e)) == a + b + c + d + e
  {
  }

  /** Two lower-case digits for each byte. */
  lemma {:induction false} HexDigits(b: Bytes, i: nat)
    requires i < |b|
    ensures Hex(b)[2 * i] == "0123456789abcdef"[b[i] / 16]
    ensures Hex(b)[2 * i + 1] == "0123456789abcdef"[b[i] % 16]
  {
    if i > 0 { HexDigits(b[1..], i - 1); }
  }

  lemma ClientTwelve()
    ensures GenClientId("07-tendermint", 12) == "07-tendermint-12"
  {
    assert Decimal(12) == "12";
  }
}
