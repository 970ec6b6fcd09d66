/** Vocabulary shared by the driver models: machine widths, return codes, small helpers. */
module Common {
  type byte = x: int | 0 <= x < 0x100

  const U16_RANGE := 0x1_0000
  const U32_RANGE := 0x1_0000_0000
  const U64_RANGE := 0x1_0000_0000_0000_0000

  datatype Option<+T> = None | Some(value: T)

  /** The errno values the drivers return (negated in C); `OK` is 0. */
  datatype Ret = OK | EPERM | EIO | EAGAIN | ENOMEM | EFAULT | EBUSY | EINVAL | ETIMEDOUT

  /** The same where a driver mixes them with counts and device status codes. */
  const MINUS_EIO := -5
  const MINUS_ENOMEM := -12
  const MINUS_EINVAL := -22

  /** The packet length field of an XGMAC descriptor has 14 bits. */
  const LEN_RANGE: nat := 0x4000

  /** Conversion of a count to C's `uint16_t`. */
  function ToU16(x: nat): (r: nat)
    ensures r <= x && r < U16_RANGE
  {
    if x < U16_RANGE then x else x % U16_RANGE
  }

  /** Subtraction on C's `uint32_t`. */
  function Sub32(a: int, b: int): nat {
    if 0 <= a - b < U32_RANGE then a - b else (a - b) % U32_RANGE
  }

  /** `s` with `part` in place from index `at` on. */
  function Overlay<T>(s: seq<T>, at: nat, part: seq<T>): (r: seq<T>)
    requires at + |part| <= |s|
    ensures |r| == |s|
  {
    s[..at] + part + s[at + |part|..]
  }

  lemma OverlayNothing<T>(s: seq<T>, at: nat)
    requires at <= |s|
    ensures Overlay(s, at, []) == s
  {
  }

  lemma OverlayHere<T>(s: seq<T>, at: nat, part: seq<T>)
    requires at + |part| <= |s|
    ensures Overlay(s, at, part)[at..at + |part|] == part
    ensures Overlay(s, at, part)[..at + |part|] == s[..at] + part
  {
  }

  lemma OverlayBefore<T>(s: seq<T>, at: nat, part: seq<T>, n: nat)
    requires at + |part| <= |s| && n <= at
    ensures Overlay(s, at, part)[..n] == s[..n]
  {
  }

  lemma OverlayAppend<T>(s: seq<T>, at: nat, part: seq<T>, x: T)
    requires at + |part| < |s|
    ensures Overlay(s, at, part)[at + |part| := x] == Overlay(s, at, part + [x])
  {
  }

  lemma OverlayTwice<T>(s: seq<T>, at: nat, first: seq<T>, second: seq<T>)
    requires at + |first| + |second| <= |s|
    ensures Overlay(Overlay(s, at, first), at + |first|, second) == Overlay(s, at, first + second)
  {
  }

  /** Index `i` places after `start` in a ring of `n` slots. */
  function RingSlot(start: nat, i: nat, n: nat): (slot: nat)
    requires start < n && i <= n
    ensures slot < n
  {
    if start + i < n then start + i else start + i - n
  }

  /** The index after `i` in such a ring. */
  function Next(i: nat, n: nat): nat {
    if i + 1 == n then 0 else i + 1
  }

  lemma NextIsModulo(i: nat, n: nat)
    requires i < n
    ensures (i + 1) % n == Next(i, n)
  {
  }
}
