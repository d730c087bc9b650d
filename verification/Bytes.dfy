/** Machine integers as bounded mathematical ones, and big-endian (network order) encodings. */
module Bytes {

  type byte = b: int | 0 <= b < 0x100

  type u16 = w: int | 0 <= w < 0x1_0000

  type u32 = a: int | 0 <= a < 0x1_0000_0000

  function Hi(w: u16): byte { w / 0x100 }

  function Lo(w: u16): byte { w % 0x100 }

  /** The 16-bit number whose network-order bytes are `hi` and `lo`. */
  function Word(hi: byte, lo: byte): u16 { hi * 0x100 + lo }

  function High16(a: u32): u16 { a / 0x1_0000 }

  function Low16(a: u32): u16 { a % 0x1_0000 }

  function Double(high: u16, low: u16): u32 { high * 0x1_0000 + low }

  function Be16(w: u16): (s: seq<byte>)
    ensures |s| == 2
  {
    [Hi(w), Lo(w)]
  }

  function Be32(a: u32): (s: seq<byte>)
    ensures |s| == 4
  {
    [Hi(High16(a)), Lo(High16(a)), Hi(Low16(a)), Lo(Low16(a))]
  }

  function Get16(s: seq<byte>, at: nat): u16
    requires at + 2 <= |s|
  {
    Word(s[at], s[at + 1])
  }

  function Get32(s: seq<byte>, at: nat): u32
    requires at + 4 <= |s|
  {
    Double(Get16(s, at), Get16(s, at + 2))
  }

  /** `s` with the bytes from `at` on overwritten by `patch`. */
  function Patch(s: seq<byte>, at: nat, patch: seq<byte>): (r: seq<byte>)
    requires at + |patch| <= |s|
    ensures |r| == |s|
  {
    s[..at] + patch + s[at + |patch|..]
  }
}
