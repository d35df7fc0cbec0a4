/** Types shared by every part of the model. */
module Common {

  datatype Option<+T> = None | Some(value: T)

  /** One octet of a captured frame. */
  type Byte = b: int | 0 <= b < 256

  /** A Rust `String`: the octets of its UTF-8 form. */
  type Text = seq<Byte>

  /** A 48-bit MAC address. */
  type Mac = m: int | 0 <= m < 0x1_0000_0000_0000

  /** An IP address (IPv4 in the low 32 bits, IPv6 tagged above them). */
  type Ip = nat

  /** A clock reading, in nanoseconds. */
  type Time = nat

  const NANOS_PER_SECOND: nat := 1_000_000_000
  const NANOS_PER_MILLI: nat := 1_000_000
  const U64_MAX: nat := 0xFFFF_FFFF_FFFF_FFFF

  /** `Instant::duration_since`, which gives zero for a later instant. */
  function Elapsed(now: Time, t: Time): Time {
    if now >= t then now - t else 0
  }

  /** A decimal digit. */
  function Digit(n: nat): char
    requires n < 10
  {
    '0' + n as char
  }

  /** Big-endian 16-bit field (`u16::from_be_bytes`). */
  function U16(hi: Byte, lo: Byte): (v: nat)
    ensures v < 0x1_0000
  {
    hi * 256 + lo
  }

  /** What holds at `k` and is kept by every step from there holds at `n`. */
  lemma {:induction false} StepByStep(k: nat, n: nat, holds: nat -> bool)
    requires k <= n && holds(k) && forall i :: k <= i < n && holds(i) ==> holds(i + 1)
    ensures holds(n)
    decreases n
  {
    if k != n { StepByStep(k, n - 1, holds); }
  }
}
