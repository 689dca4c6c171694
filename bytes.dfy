/** Fixed-width integer types and big-endian helpers shared by every module.
    C's uint8_t, uint16_t and uint32_t are subset types of int, and every
    wrap-around the source relies on is written out with `%`. */
module Bytes {

  type Byte = b: int | 0 <= b < 0x100
  type Uint16 = x: int | 0 <= x < 0x1_0000
  type Uint32 = x: int | 0 <= x < 0x1_0000_0000

  const Two32: int := 0x1_0000_0000
  const Two64: int := 0x1_0000_0000_0000_0000

  datatype Option<+T> = None | Some(value: T)

  /** The outcome of an operation that the source aborts on when it fails. */
  datatype Result<+T, +E> = Ok(value: T) | Err(error: E)

  /** C's bitwise `|` on non-negative integers, bit by bit from the lowest. */
  function BitOr(a: nat, b: nat): nat
    decreases a + b
  {
    if a == 0 then b
    else if b == 0 then a
    else 2 * BitOr(a / 2, b / 2) + (if a % 2 == 1 || b % 2 == 1 then 1 else 0)
  }

  /** 2^k. */
  function Pow2(k: nat): (r: nat)
    ensures r >= 1
  {
    if k == 0 then 1 else 2 * Pow2(k - 1)
  }

  /** OR-ing numbers of k bits gives a number of k bits. */
  lemma {:induction false} BitOrBound(a: nat, b: nat, k: nat)
    requires a < Pow2(k) && b < Pow2(k)
    ensures BitOr(a, b) < Pow2(k)
    decreases k
  {
    if a != 0 && b != 0 {
      BitOrBound(a / 2, b / 2, k - 1);
    }
  }

  /** OR is commutative. */
  lemma {:induction false} BitOrCommutes(a: nat, b: nat)
    ensures BitOr(a, b) == BitOr(b, a)
    decreases a + b
  {
    if a != 0 && b != 0 {
      BitOrCommutes(a / 2, b / 2);
    }
  }

  /** OR-ing a value into the k low bits left clear by a shift is addition. */
  lemma {:induction false} BitOrDisjoint(h: nat, l: nat, k: nat)
    requires l < Pow2(k)
    ensures BitOr(h * Pow2(k), l) == h * Pow2(k) + l
    decreases k
  {
    if k > 0 && h != 0 && l != 0 {
      var p := Pow2(k - 1);
      assert h * Pow2(k) == 2 * (h * p);
      BitOrDisjoint(h, l / 2, k - 1);
    }
  }

  /** OR never clears a bit, so it is at least either operand. */
  lemma {:induction false} BitOrAtLeast(a: nat, b: nat)
    ensures a <= BitOr(a, b) && b <= BitOr(a, b)
    decreases a + b
  {
    if a != 0 && b != 0 {
      BitOrAtLeast(a / 2, b / 2);
    }
  }

  /** Bitwise OR of two bytes (C's `|` on uint8_t): at least either
      operand, and a high nibble OR-ed with a low one is their sum. */
  function Or8(a: Byte, b: Byte): (r: Byte)
    ensures r == BitOr(a, b)
    ensures a <= r && b <= r
    ensures a % 0x10 == 0 && b < 0x10 ==> r == a + b
  {
    BitOrBound(a, b, 8);
    BitOrAtLeast(a, b);
    assert Pow2(4) == 0x10;
    if a % 0x10 == 0 && b < 0x10 then
      BitOrDisjoint(a / 0x10, b, 4);
      BitOr(a, b)
    else BitOr(a, b)
  }

  /** Splitting a number into its quotient and remainder by 256. */
  lemma DivMod256(x: int, q: int, r: int)
    requires 0 <= r < 0x100 && x == q * 0x100 + r
    ensures x / 0x100 == q && x % 0x100 == r
  {
  }

  /** The four bytes `_mw_write_u32` stores: `u32 >> 24`, `>> 16`, `>> 8`, `u32`, each truncated to 8 bits. */
  function BE32(x: Uint32): (r: seq<Byte>)
    ensures |r| == 4
  {
    var q0 := x / 0x100;
    var q1 := q0 / 0x100;
    [q1 / 0x100, q1 % 0x100, q0 % 0x100, x % 0x100]
  }

  /** The two bytes `_mw_write_u16` stores: `u16 >> 8`, `u16`. */
  function BE16(x: Uint16): (r: seq<Byte>)
    ensures |r| == 2
  {
    [x / 0x100, x % 0x100]
  }

  /** The big-endian number four bytes spell. */
  function FromBE32(s: seq<Byte>): Uint32
    requires |s| == 4
  {
    (((s[0] as int) * 0x100 + s[1]) * 0x100 + s[2]) * 0x100 + s[3]
  }

  function FromBE16(s: seq<Byte>): Uint16
    requires |s| == 2
  {
    (s[0] as int) * 0x100 + s[1]
  }

  /** A big-endian field reads back as the number written. */
  lemma BE32RoundTrip(x: Uint32)
    ensures FromBE32(BE32(x)) == x
  {
  }

  lemma BE16RoundTrip(x: Uint16)
    ensures FromBE16(BE16(x)) == x
  {
  }

  /** A big-endian field read back gives the same bytes it was written from. */
  lemma BE32Injective(s: seq<Byte>)
    requires |s| == 4
    ensures BE32(FromBE32(s)) == s
  {
    var b: int := (s[0] as int) * 0x100 + s[1];
    var a: int := b * 0x100 + s[2];
    var x: int := a * 0x100 + s[3];
    DivMod256(x, a, s[3]);
    DivMod256(a, b, s[2]);
    DivMod256(b, s[0], s[1]);
  }

  lemma BE16Injective(s: seq<Byte>)
    requires |s| == 2
    ensures BE16(FromBE16(s)) == s
  {
    DivMod256(FromBE16(s), s[0], s[1]);
  }

  /** Counting up in 32-bit unsigned arithmetic tracks the true count modulo 2^32. */
  lemma WrapIncrement(x: nat)
    ensures ((x % Two32) + 1) % Two32 == (x + 1) % Two32
  {
    var q := x / Two32;
    assert x == q * Two32 + x % Two32;
    if x % Two32 + 1 == Two32 {
      assert x + 1 == (q + 1) * Two32;
    } else {
      assert x + 1 == q * Two32 + (x % Two32 + 1);
    }
  }

  /** A value that fits in 32 bits is its own remainder. */
  lemma ModSmall(v: int)
    requires 0 <= v < Two32
    ensures v % Two32 == v
  {
  }

  /** Adding in two 32-bit steps wraps like adding at once. */
  lemma WrapAdd(x: nat, y: nat)
    ensures ((x % Two32) + y) % Two32 == (x + y) % Two32
  {
    var q, r := x / Two32, x % Two32;
    assert x + y == q * Two32 + (r + y);
    var q2, r2 := (r + y) / Two32, (r + y) % Two32;
    assert x + y == (q + q2) * Two32 + r2;
  }

  /** The same for 16-bit counters. */
  lemma WrapAdd16(x: nat, y: nat)
    ensures ((x % 0x1_0000) + y) % 0x1_0000 == (x + y) % 0x1_0000
  {
    var q, r := x / 0x1_0000, x % 0x1_0000;
    assert x + y == q * 0x1_0000 + (r + y);
    var q2, r2 := (r + y) / 0x1_0000, (r + y) % 0x1_0000;
    assert x + y == (q + q2) * 0x1_0000 + r2;
  }

  /** `n` zero bytes (the gap a seek past the end of a file leaves). */
  function Zeros(n: nat): (r: seq<Byte>)
    ensures |r| == n
  {
    if n == 0 then [] else Zeros(n - 1) + [0]
  }
}
