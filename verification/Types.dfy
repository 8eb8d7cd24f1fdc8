/** Base types shared by every module: machine integers, byte strings, heights and times. */
module Types {

  datatype Option<+T> = None | Some(value: T)

  type Byte = n: int | 0 <= n < 256
  type Bytes = seq<Byte>

  type U64 = n: int | 0 <= n < 0x1_0000_0000_0000_0000

  function Zeros(n: nat): (z: Bytes)
    ensures |z| == n && forall i :: 0 <= i < n ==> z[i] == 0
  {
    seq(n, _ => 0)
  }

  type Bytes32 = b: Bytes | |b| == 32 witness Zeros(32)
  type StateId = Bytes32
  type Address = b: Bytes | |b| == 20 witness Zeros(20)

  /** `Height`: revision number first, then revision height. */
  datatype Height = Height(revision: U64, height: U64) {
    predicate IsZero() { revision == 0 && height == 0 }

    predicate Less(other: Height) {
      revision < other.revision || (revision == other.revision && height < other.height)
    }
  }

  const ZERO_HEIGHT := Height(0, 0)

  function MaxHeight(a: Height, b: Height): Height {
    if a.Less(b) then b else a
  }

  /** The order of heights is that of revision and height read as one number; the maximum is its upper bound. */
  lemma HeightOrder(a: Height, b: Height)
    ensures a.Less(b) <==> a.revision * 0x1_0000_0000_0000_0000 + a.height
                           < b.revision * 0x1_0000_0000_0000_0000 + b.height
    ensures a == b || a.Less(b) || b.Less(a)
    ensures var m := MaxHeight(a, b); (m == a || m == b) && !m.Less(a) && !m.Less(b)
  {
  }

  const NANOS_PER_SEC: int := 1_000_000_000

  /** 9999-12-31T23:59:59.999999999Z, the last instant the time library represents. */
  const MAX_UNIX_TIMESTAMP_NANOS: int := 253_402_300_799_999_999_999

  /** Instants from the Unix epoch on, in nanoseconds. */
  type Time = n: int | 0 <= n <= 253_402_300_799_999_999_999

  /** Durations in nanoseconds: a 64-bit number of seconds plus a sub-second part. */
  type Duration = n: int | 0 <= n < 0x1_0000_0000_0000_0000 * 1_000_000_000

  function Secs(t: Time): (s: U64)
    ensures s * NANOS_PER_SEC <= t < (s + 1) * NANOS_PER_SEC
  {
    t / NANOS_PER_SEC
  }

  /** `Time + Duration`: fails when the sum leaves the representable range. */
  function AddTime(t: Time, d: Duration): (r: Option<Time>)
    ensures r.Some? <==> t + d <= MAX_UNIX_TIMESTAMP_NANOS
    ensures r.Some? ==> r.value == t + d
  {
    if t + d <= MAX_UNIX_TIMESTAMP_NANOS then Some(t + d) else None
  }

  function FromSecs(s: U64): Duration { s * NANOS_PER_SEC }
}
