/** Machine integers and their little-endian byte images, as the patcher copies
    them into memory with `copy_nonoverlapping` on x86-64. */
module Bytes {

  type byte = x: int | 0 <= x < 0x100
  type u32 = x: int | 0 <= x < 0x1_0000_0000
  type u64 = x: int | 0 <= x < 0x1_0000_0000_0000_0000
  /** `usize` on x86-64. */
  type usize = u64

  const I32_MIN: int := -0x8000_0000
  const I32_MAX: int := 0x7fff_ffff

  /** `isize::try_into::<i32>()` succeeds exactly on these values. */
  predicate FitsI32(v: int) {
    I32_MIN <= v <= I32_MAX
  }

  function Pow256(n: nat): (p: nat)
    ensures p >= 1
  {
    if n == 0 then 1 else 0x100 * Pow256(n - 1)
  }

  /** The `n` least significant bytes of `v`, least significant first. */
  function LittleEndian(v: nat, n: nat): (s: seq<byte>)
    requires v < Pow256(n)
    ensures |s| == n
  {
    if n == 0 then [] else [v % 0x100] + LittleEndian(v / 0x100, n - 1)
  }

  /** The unsigned value of a little-endian byte string. */
  function FromLittleEndian(s: seq<byte>): (v: nat)
    ensures v < Pow256(|s|)
  {
    if s == [] then 0 else s[0] + 0x100 * FromLittleEndian(s[1..])
  }

  lemma {:induction false} LittleEndianRoundTrip(v: nat, n: nat)
    requires v < Pow256(n)
    ensures FromLittleEndian(LittleEndian(v, n)) == v
  {
    if n > 0 {
      var s := LittleEndian(v, n);
      assert s[1..] == LittleEndian(v / 0x100, n - 1);
      LittleEndianRoundTrip(v / 0x100, n - 1);
    }
  }

  lemma {:induction false} FromLittleEndianRoundTrip(s: seq<byte>)
    ensures LittleEndian(FromLittleEndian(s), |s|) == s
  {
    if s != [] {
      FromLittleEndianRoundTrip(s[1..]);
      var v := FromLittleEndian(s);
      assert v % 0x100 == s[0] && v / 0x100 == FromLittleEndian(s[1..]);
    }
  }

  /** The four bytes that `copy_nonoverlapping(&x as *const i32 as *const u8, _, 4)`
      writes: the two's-complement image of an `i32`. */
  function I32Bytes(v: int): (s: seq<byte>)
    requires FitsI32(v)
    ensures |s| == 4
  {
    LittleEndian(if v < 0 then v + 0x1_0000_0000 else v, 4)
  }

  /** Reads four bytes back as a signed 32-bit value. */
  function I32FromBytes(s: seq<byte>): (v: int)
    requires |s| == 4
    ensures FitsI32(v)
  {
    var u := FromLittleEndian(s);
    if u <= I32_MAX then u else u - 0x1_0000_0000
  }

  lemma I32RoundTrip(v: int)
    requires FitsI32(v)
    ensures I32FromBytes(I32Bytes(v)) == v
  {
    LittleEndianRoundTrip(if v < 0 then v + 0x1_0000_0000 else v, 4);
  }

  /** The eight bytes of a 64-bit pointer or integer. */
  function U64Bytes(v: u64): (s: seq<byte>)
    ensures |s| == 8
  {
    LittleEndian(v, 8)
  }

  lemma U64RoundTrip(v: u64)
    ensures FromLittleEndian(U64Bytes(v)) == v
  {
    LittleEndianRoundTrip(v, 8);
  }

  /** The four bytes of a `u32` store. */
  function U32Bytes(v: u32): (s: seq<byte>)
    ensures |s| == 4
  {
    LittleEndian(v, 4)
  }

  lemma U32RoundTrip(v: u32)
    ensures FromLittleEndian(U32Bytes(v)) == v
  {
    LittleEndianRoundTrip(v, 4);
  }

  /** `s` with `data` written over it from index `at` on: the part before
      `at`, then `data`, then the part behind it. This is what a copy of `data`
      into memory at `at` leaves behind. */
  function Splice<T>(s: seq<T>, at: nat, data: seq<T>): (r: seq<T>)
    requires at + |data| <= |s|
    ensures |r| == |s|
  {
    s[..at] + data + s[at + |data|..]
  }

  /** A copy puts `data` at `at` and changes nothing outside the bytes it
      writes. */
  lemma SpliceContents<T>(s: seq<T>, at: nat, data: seq<T>)
    requires at + |data| <= |s|
    ensures Splice(s, at, data)[at..at + |data|] == data
    ensures forall i :: 0 <= i < |s| && !(at <= i < at + |data|) ==> Splice(s, at, data)[i] == s[i]
  {
  }

  /** Copying nothing changes nothing. */
  lemma SpliceNothing<T>(s: seq<T>, at: nat)
    requires at <= |s|
    ensures Splice(s, at, []) == s
  {
  }

  /** Two copies that abut are one copy of their concatenation. */
  lemma SpliceAppend<T>(s: seq<T>, at: nat, a: seq<T>, b: seq<T>)
    requires at + |a| + |b| <= |s|
    ensures Splice(Splice(s, at, a), at + |a|, b) == Splice(s, at, a + b)
  {
    assert Splice(s, at, a)[..at + |a|] == s[..at] + a;
  }

  /** Writing back the bytes a copy overwrote restores the memory. */
  lemma SpliceRevert<T>(s: seq<T>, at: nat, data: seq<T>)
    requires at + |data| <= |s|
    ensures Splice(Splice(s, at, data), at, s[at..at + |data|]) == s
  {
    assert Splice(s, at, data)[..at] == s[..at];
  }

  /** Concatenation regroups freely. */
  lemma AppendAssoc<T>(a: seq<T>, b: seq<T>, c: seq<T>)
    ensures a + (b + c) == a + b + c
  {
  }

  lemma AppendAssoc4<T>(w: seq<T>, a: seq<T>, b: seq<T>, c: seq<T>, d: seq<T>)
    ensures w + (a + b + c + d) == w + a + b + c + d
  {
    AppendAssoc(w, a + b + c, d);
    AppendAssoc(w, a + b, c);
    AppendAssoc(w, a, b);
  }
}
