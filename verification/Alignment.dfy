/**
 The rounding expression `(x + (a - 1)) & ~(a - 1)` in JavaScript's 32-bit integer operators
 (sections 6.1.6.1.2 and 6.1.6.1.17 of ECMA-262 2023).
 */
module Alignment {

  function Pow2(n: nat): (p: nat)
    ensures p > 0
  {
    if n == 0 then 1 else 2 * Pow2(n - 1)
  }

  const WORD: nat := 0x1_0000_0000

  /** A number brought into the range of a 32-bit word, without and with a sign. */
  function ToUint32(x: int): (r: nat)
    ensures r < WORD
  {
    x % WORD
  }

  function ToInt32(x: int): (r: int)
    ensures -0x8000_0000 <= r < 0x8000_0000
  {
    var u := ToUint32(x);
    if u >= 0x8000_0000 then u - WORD else u
  }

  /** The conjunction of the lowest bits. */
  function AndBit(x: nat, y: nat): nat {
    if x % 2 == 1 && y % 2 == 1 then 1 else 0
  }

  /** Bit by bit conjunction of two natural numbers. */
  function AndBits(x: nat, y: nat): (r: nat)
    ensures r <= x && r <= y
  {
    if x == 0 || y == 0 then 0 else 2 * AndBits(x / 2, y / 2) + AndBit(x, y)
  }

  function BitAnd(x: int, y: int): int {
    ToInt32(AndBits(ToUint32(x), ToUint32(y)))
  }

  function BitNot(x: int): int {
    -ToInt32(x) - 1
  }

  function Align(x: int, a: int): int {
    BitAnd(x + (a - 1), BitNot(a - 1))
  }

  /** A number is the sum of its bits under a mask and its bits under the complement of the mask. */
  lemma {:induction false} MaskSplits(x: nat, m: nat, n: nat)
    requires x < Pow2(n) && m < Pow2(n)
    ensures AndBits(x, m) + AndBits(x, Pow2(n) - 1 - m) == x
    decreases n
  {
    if n > 0 {
      MaskSplits(x / 2, m / 2, n - 1);
      var c := Pow2(n) - 1 - m;
      assert c / 2 == Pow2(n - 1) - 1 - m / 2 && c % 2 == 1 - m % 2;
      AndStep(x, m);
      AndStep(x, c);
    }
  }

  lemma AndStep(x: nat, y: nat)
    ensures AndBits(x, y) == 2 * AndBits(x / 2, y / 2) + AndBit(x, y)
  {
    if x == 0 || y == 0 {
      assert AndBits(x / 2, y / 2) == 0;
    }
  }

  /** Under the mask of its low `k` bits a number leaves its remainder. */
  lemma {:induction false} LowBits(x: nat, k: nat)
    ensures AndBits(x, Pow2(k) - 1) == x % Pow2(k)
    decreases k
  {
    if k > 0 {
      var p := Pow2(k - 1);
      LowBits(x / 2, k - 1);
      MaskStep(x, p);
      HalfRemainder(x, p);
    }
  }

  lemma MaskStep(x: nat, p: nat)
    requires p > 0
    ensures AndBits(x, 2 * p - 1) == 2 * AndBits(x / 2, p - 1) + x % 2
  {
    AndStep(x, 2 * p - 1);
    assert (2 * p - 1) / 2 == p - 1 && (2 * p - 1) % 2 == 1;
  }

  lemma HalfRemainder(x: nat, p: nat)
    requires p > 0
    ensures x % (2 * p) == 2 * ((x / 2) % p) + x % 2
  {
    var q, r := (x / 2) / p, (x / 2) % p;
    assert x / 2 == q * p + r;
    assert x == 2 * (q * p + r) + x % 2;
    assert x == q * (2 * p) + (2 * r + x % 2) by {
      assert 2 * (q * p) == q * (2 * p);
    }
    RemainderIs(x, 2 * p, q, 2 * r + x % 2);
  }

  lemma ProductSign(d: int, a: int)
    requires a > 0
    ensures d > 0 ==> d * a >= a
    ensures d < 0 ==> d * a <= -a
  {
  }

  lemma RemainderIs(x: int, d: int, q: int, r: int)
    requires 0 <= r < d && x == q * d + r
    ensures x % d == r
  {
    var e := x / d - q;
    assert e * d == r - x % d;
    ProductSign(e, d);
  }

  lemma WordSize() returns (n: nat)
    ensures n == 32 && Pow2(n) == WORD
  {
    assert Pow2(8) == 256;
    assert Pow2(16) == 256 * Pow2(8);
    assert Pow2(24) == 256 * Pow2(16);
    assert Pow2(32) == 256 * Pow2(24);
    n := 32;
  }

  lemma SmallIsInWord(v: int)
    requires 0 <= v < 0x8000_0000
    ensures ToUint32(v) == v && ToInt32(v) == v && BitNot(v) == -v - 1
    ensures ToUint32(-v - 1) == WORD - 1 - v
  {
  }

  /** The mask `~(a - 1)` clears what `a - 1` keeps. */
  lemma NotClears(y: nat, m: nat)
    requires y < 0x8000_0000 && m < 0x8000_0000
    ensures BitAnd(y, BitNot(m)) == y - AndBits(y, m)
  {
    var n := WordSize();
    MaskSplits(y, m, n);
    SmallIsInWord(y);
    SmallIsInWord(m);
    SmallIsInWord(y - AndBits(y, m));
  }

  /** As long as the sum stays below 2^31 the expression clears the bits of `a - 1` from it. */
  lemma AlignClears(x: nat, a: nat)
    requires a > 0 && x + (a - 1) < 0x8000_0000
    ensures Align(x, a) == x + (a - 1) - AndBits(x + (a - 1), a - 1)
  {
    NotClears(x + (a - 1), a - 1);
  }

  /** So for every positive alignment the offset moves forward, by less than the alignment. */
  lemma AlignMovesForward(x: nat, a: nat)
    requires a > 0 && x + (a - 1) < 0x8000_0000
    ensures x <= Align(x, a) <= x + (a - 1)
  {
    AlignClears(x, a);
  }

  /** `r` is the least multiple of `a` that is not below `x`. */
  predicate LeastMultiple(r: int, x: int, a: int)
    requires a > 0
  {
    x <= r < x + a && r % a == 0
  }

  lemma LeastMultipleIsLeast(r: int, x: int, a: int, m: int)
    requires a > 0 && LeastMultiple(r, x, a) && m >= x && m % a == 0
    ensures r <= m
  {
    var d := r / a - m / a;
    assert r == a * (r / a) && m == a * (m / a);
    assert d * a == r - m;
    ProductSign(d, a);
  }

  lemma {:induction false} PowersBelow(k: nat, n: nat)
    requires k <= n
    ensures Pow2(n) % Pow2(k) == 0 && Pow2(k) <= Pow2(n)
    decreases n
  {
    if k < n {
      PowersBelow(k, n - 1);
      var q := Pow2(n - 1) / Pow2(k);
      assert Pow2(n) == (2 * q) * Pow2(k) + 0;
      RemainderIs(Pow2(n), Pow2(k), 2 * q, 0);
    } else {
      RemainderIs(Pow2(k), Pow2(k), 1, 0);
    }
  }

  lemma RoundedDown(y: nat, a: nat)
    requires a > 0
    ensures 0 <= y - y % a <= y < y - y % a + a && (y - y % a) % a == 0
  {
    RemainderIs(y - y % a, a, y / a, 0);
  }

  /** Below 2^31 the least multiple comes out exactly. */
  lemma AlignToPower(x: nat, k: nat, a: nat)
    requires a == Pow2(k) && x + (a - 1) < 0x8000_0000
    ensures LeastMultiple(Align(x, a), x, a)
  {
    var y := x + (a - 1);
    RoundedDown(y, a);
    assert Align(x, a) == y - y % a by {
      AlignClears(x, a);
      LowBits(y, k);
    }
  }

  lemma TopIsMultiple(k: nat)
    requires k <= 31
    ensures 0x8000_0000 % Pow2(k) == 0
  {
    var n := WordSize();
    PowersBelow(k, n - 1);
  }

  /** Past 2^31 the least multiple is no 32-bit integer. */
  lemma NoMultipleFits(r: int, x: nat, a: nat)
    requires a > 0 && 0x8000_0000 % a == 0 && x + (a - 1) >= 0x8000_0000 && LeastMultiple(r, x, a)
    ensures r >= 0x8000_0000
  {
    var top := 0x8000_0000;
    var d := top / a - r / a;
    assert top == a * (top / a) && r == a * (r / a);
    assert d * a == top - r;
    ProductSign(d, a);
  }

  /** For every power of two a 32-bit word can hold, the result is the least multiple exactly below 2^31. */
  lemma AlignIsLeastMultipleIff(x: nat, k: nat)
    requires k <= 31
    ensures LeastMultiple(Align(x, Pow2(k)), x, Pow2(k)) <==> x + (Pow2(k) - 1) < 0x8000_0000
  {
    var a := Pow2(k);
    if x + (a - 1) < 0x8000_0000 {
      AlignToPower(x, k, a);
    } else if LeastMultiple(Align(x, a), x, a) {
      TopIsMultiple(k);
      NoMultipleFits(Align(x, a), x, a);
      assert false;
    }
  }
}
