/**
 * The JavaScript number operations the canvas hook relies on: the int32
 * conversion of the bitwise operators, bitwise exclusive or, and the clamping
 * a Uint8ClampedArray applies when an element is assigned.
 */
module JsNumbers {

  const TwoTo31: int := 0x8000_0000
  const TwoTo32: int := 0x1_0000_0000

  /** ECMAScript ToInt32 on an integral number: wrap modulo 2^32 into [-2^31, 2^31). */
  function ToInt32(x: int): (r: int)
    ensures -TwoTo31 <= r < TwoTo31
    ensures (x - r) % TwoTo32 == 0
    ensures -TwoTo31 <= x < TwoTo31 ==> r == x
  {
    var m := x % TwoTo32;
    if m >= TwoTo31 then m - TwoTo32 else m
  }

  /** Bitwise exclusive or of two natural numbers, bit by bit from the least significant. */
  function Xor(a: nat, b: nat): nat
    decreases a + b
  {
    if a == 0 then b
    else if b == 0 then a
    else 2 * Xor(a / 2, b / 2) + (if a % 2 == b % 2 then 0 else 1)
  }

  function Pow2(n: nat): (r: nat)
    ensures r >= 1
  {
    if n == 0 then 1 else 2 * Pow2(n - 1)
  }

  /** Exclusive or of two n-bit numbers is an n-bit number. */
  lemma {:induction false} XorBound(a: nat, b: nat, n: nat)
    requires a < Pow2(n) && b < Pow2(n)
    ensures Xor(a, b) < Pow2(n)
  {
    if a != 0 && b != 0 {
      XorBound(a / 2, b / 2, n - 1);
    }
  }

  /** Flipping the bits of `b` in `a` moves `a` by at most `b`. */
  lemma {:induction false} XorDistance(a: nat, b: nat)
    ensures a - b <= Xor(a, b) <= a + b
    decreases a + b
  {
    if a != 0 && b != 0 {
      XorDistance(a / 2, b / 2);
    }
  }

  lemma {:induction false} XorSelf(a: nat)
    ensures Xor(a, a) == 0
    decreases a
  {
    if a != 0 {
      XorSelf(a / 2);
    }
  }

  /** Exclusive or with the same key twice gives back the original number. */
  lemma {:induction false} XorSelfInverse(a: nat, b: nat)
    ensures Xor(Xor(a, b), b) == a
    decreases a + b
  {
    if a == 0 {
      XorSelf(b);
    } else if b != 0 {
      var x := Xor(a / 2, b / 2);
      var bit := if a % 2 == b % 2 then 0 else 1;
      var c := 2 * x + bit;
      assert Xor(a, b) == c;
      XorSelfInverse(a / 2, b / 2);
      if c == 0 {
        assert Xor(0, b / 2) == b / 2;
        assert a / 2 == b / 2;
      } else {
        assert c / 2 == x && c % 2 == bit;
        assert Xor(c, b) == 2 * Xor(x, b / 2) + (if bit == b % 2 then 0 else 1);
      }
    }
  }

  /**
   * `data[i] ^= k` where `data` is a Uint8ClampedArray and `data[i]` is `b`:
   * both operands go through ToInt32, and the int32 result is clamped to 0..255
   * when it is stored.
   */
  function ClampedXor(b: nat, k: int): (r: nat)
    requires b < 256
    ensures r < 256
  {
    var k32 := ToInt32(k);
    if k32 < 0 then 0  // a negative int32 key makes the result negative, stored as 0
    else
      var x := Xor(b, k32);
      if x > 255 then 255 else x
  }

  /** A stored byte moves by at most the key, whatever the clamping did. */
  lemma ClampedXorClose(b: nat, k: int)
    requires b < 256 && 0 <= k < TwoTo31
    ensures b - k <= ClampedXor(b, k) <= b + k
  {
    XorDistance(b, k);
  }

  /** A key below 256 is a plain exclusive or: nothing is clamped. */
  lemma ClampedXorExact(b: nat, k: int)
    requires b < 256 && 0 <= k < 256
    ensures ClampedXor(b, k) == Xor(b, k)
  {
    assert Pow2(8) == 256;
    XorBound(b, k, 8);
  }

  /** With a key below 256, applying the same key twice restores the byte. */
  lemma ClampedXorSelfInverse(b: nat, k: int)
    requires b < 256 && 0 <= k < 256
    ensures ClampedXor(ClampedXor(b, k), k) == b
  {
    ClampedXorExact(b, k);
    ClampedXorExact(Xor(b, k), k);
    XorSelfInverse(b, k);
  }
}
