/**
 * The two functions of Go's `crypto/subtle` that `Compare` calls. The byte
 * comparison folds `x[i] ^ y[i]` into one accumulator with `|` over every
 * index and only tests the accumulator at the end, so where the inputs first
 * differ never decides how much work is done.
 */
module Subtle {
  import opened GoTypes

  /** `ConstantTimeEq(x, y)`: 1 when the two 32-bit integers are equal, 0 otherwise. */
  function ConstantTimeEq(x: int, y: int): (r: int)
    ensures r == 0 || r == 1
    ensures r == 1 <==> x == y
  {
    if x == y then 1 else 0
  }

  /** Go's `^` on non-negative integers, one bit at a time from the lowest. */
  function Xor(a: nat, b: nat): nat
    decreases a + b
  {
    if a == 0 && b == 0 then 0
    else 2 * Xor(a / 2, b / 2) + (a % 2 + b % 2) % 2
  }

  /** Go's `|` on non-negative integers, one bit at a time from the lowest. */
  function Or(a: nat, b: nat): nat
    decreases a + b
  {
    if a == 0 && b == 0 then 0
    else 2 * Or(a / 2, b / 2) + (if a % 2 == 1 || b % 2 == 1 then 1 else 0)
  }

  function Pow2(k: nat): (r: nat)
    ensures r >= 1
  {
    if k == 0 then 1 else 2 * Pow2(k - 1)
  }

  /** `x ^ y` is zero exactly when `x` and `y` are equal. */
  lemma {:induction false} XorZero(a: nat, b: nat)
    ensures Xor(a, b) == 0 <==> a == b
    decreases a + b
  {
    if a != 0 || b != 0 {
      XorZero(a / 2, b / 2);
    }
  }

  /** `p | q` is zero exactly when both are zero. */
  lemma {:induction false} OrZero(p: nat, q: nat)
    ensures Or(p, q) == 0 <==> p == 0 && q == 0
    decreases p + q
  {
    if p != 0 || q != 0 {
      OrZero(p / 2, q / 2);
    }
  }

  /** Neither operation leaves `k` bits, so on bytes they give bytes. */
  lemma {:induction false} XorOrBelow(a: nat, b: nat, k: nat)
    requires a < Pow2(k) && b < Pow2(k)
    ensures Xor(a, b) < Pow2(k) && Or(a, b) < Pow2(k)
    decreases k
  {
    if k > 0 && (a != 0 || b != 0) {
      XorOrBelow(a / 2, b / 2, k - 1);
    }
  }

  /** `x[0] ^ y[0] | ... | x[n-1] ^ y[n-1]` over the first `n` bytes of each input. */
  function Accumulated(x: seq<byte>, y: seq<byte>, n: nat): (v: nat)
    requires n <= |x| && n <= |y|
    ensures v < TWO_TO_8
    decreases n
  {
    if n == 0 then 0
    else
      var acc, d := Accumulated(x, y, n - 1), Xor(x[n - 1] as nat, y[n - 1] as nat);
      assert Pow2(8) == TWO_TO_8;
      XorOrBelow(x[n - 1] as nat, y[n - 1] as nat, 8);
      XorOrBelow(acc, d, 8);
      Or(acc, d)
  }

  /** The accumulator stays zero exactly as long as the two prefixes agree. */
  lemma {:induction false} AccumulatedZero(x: seq<byte>, y: seq<byte>, n: nat)
    requires n <= |x| && n <= |y|
    ensures Accumulated(x, y, n) == 0 <==> x[..n] == y[..n]
    decreases n
  {
    if n > 0 {
      AccumulatedZero(x, y, n - 1);
      var a, b := x[n - 1], y[n - 1];
      XorZero(a as nat, b as nat);
      OrZero(Accumulated(x, y, n - 1), Xor(a as nat, b as nat));
      assert x[..n] == x[..n - 1] + [a] && y[..n] == y[..n - 1] + [b];
      if x[..n] == y[..n] {
        assert x[..n - 1] == x[..n][..n - 1] && y[..n - 1] == y[..n][..n - 1];
        assert a == x[..n][n - 1] && b == y[..n][n - 1];
      }
    }
  }

  /** `ConstantTimeCompare(x, y)`: 1 when the byte strings are equal, 0 otherwise. */
  function ConstantTimeCompare(x: seq<byte>, y: seq<byte>): (r: int)
    ensures r == 0 || r == 1
    ensures r == 1 <==> x == y
  {
    if |x| != |y| then 0
    else
      AccumulatedZero(x, y, |x|);
      assert x[..|x|] == x && y[..|y|] == y;
      if Accumulated(x, y, |x|) == 0 then 1 else 0
  }

  /**
   * The loop of `ConstantTimeCompare` as it runs: no early exit, so when the
   * lengths agree every index is visited (`visited == |x|`) whatever the bytes are.
   */
  method ConstantTimeCompareLoop(x: seq<byte>, y: seq<byte>) returns (r: int, visited: nat)
    ensures r == ConstantTimeCompare(x, y)
    ensures visited == (if |x| == |y| then |x| else 0)
  {
    if |x| != |y| {
      return 0, 0;
    }
    var v: byte := 0;
    var i := 0;
    while i < |x|
      invariant 0 <= i <= |x|
      invariant v as nat == Accumulated(x, y, i)
    {
      assert Or(v as nat, Xor(x[i] as nat, y[i] as nat)) == Accumulated(x, y, i + 1);
      v := Or(v as nat, Xor(x[i] as nat, y[i] as nat)) as byte;
      i := i + 1;
    }
    r := if v == 0 then 1 else 0;
    visited := i;
  }
}
