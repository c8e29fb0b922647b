/**
 Bit operations on 32-bit words, written on naturals.

 The driver tests for a power of two with `(-val) & val`, rounds up with `(x + a - 1) & ~(a - 1)`
 and reduces with `x & (a - 1)`.  Here these are the word operations themselves, and the lemmas say
 what they mean in ordinary arithmetic.
 */
module Bits {

  const WORD: nat := 0x1_0000_0000

  function Pow2(k: nat): (p: nat)
    ensures p >= 1
  {
    if k == 0 then 1 else 2 * Pow2(k - 1)
  }

  ghost predicate IsPowerOfTwo(v: nat) {
    exists k: nat :: v == Pow2(k)
  }

  /** Bitwise conjunction. */
  function And(x: nat, y: nat): nat {
    if x == 0 || y == 0 then 0
    else (if x % 2 == 1 && y % 2 == 1 then 1 else 0) + 2 * And(x / 2, y / 2)
  }

  function Negate(v: nat): nat
    requires v < WORD
  {
    (WORD - v) % WORD
  }

  function Complement(v: nat): nat
    requires v < WORD
  {
    WORD - 1 - v
  }

  /** The kernel's ALIGN macro. */
  function AlignWord(x: nat, a: nat): nat
    requires 0 < a < WORD
  {
    And((x + (a - 1)) % WORD, Complement(a - 1))
  }

  lemma WordIsPow2()
    ensures Pow2(32) == WORD
  {
    assert Pow2(8) == 256;
    assert Pow2(16) == 0x1_0000;
    assert Pow2(24) == 0x100_0000;
  }

  lemma ModDouble(x: nat, m: nat)
    requires m > 0
    ensures x % (2 * m) == 2 * ((x / 2) % m) + x % 2
  {
    var q, r := (x / 2) / m, (x / 2) % m;
    assert x / 2 == m * q + r;
    assert x == (2 * m) * q + (2 * r + x % 2) by {
      assert x == 2 * (m * q + r) + x % 2;
      assert 2 * (m * q) == (2 * m) * q;
    }
    ModUnique(x, 2 * m, q, 2 * r + x % 2);
  }

  /** Quotient and remainder are unique, for negative numbers too. */
  lemma ModUnique(x: int, m: int, q: int, r: int)
    requires 0 <= r < m
    requires x == m * q + r
    ensures x % m == r && x / m == q
  {
    var q', r' := x / m, x % m;
    assert m * (q' - q) == r - r' by {
      assert x == m * q' + r';
      assert m * (q' - q) == m * q' - m * q;
    }
    if q' != q {
      SmallMultiple(m, q' - q);
    }
  }

  lemma SmallMultiple(m: int, t: int)
    requires m > 0 && -m < m * t < m
    ensures t == 0
  {
  }

  lemma ModPow2(x: nat, k: nat)
    requires k > 0
    ensures x % Pow2(k) == 2 * ((x / 2) % Pow2(k - 1)) + x % 2
  {
    ModDouble(x, Pow2(k - 1));
    assert Pow2(k) == 2 * Pow2(k - 1);
  }

  lemma AndStep(x: nat, y: nat)
    ensures And(x, y) == (if x % 2 == 1 && y % 2 == 1 then 1 else 0) + 2 * And(x / 2, y / 2)
  {
  }

  /** `x & (2^k - 1)` is the remainder modulo 2^k. */
  lemma {:induction false} AndLowMask(x: nat, k: nat)
    ensures And(x, Pow2(k) - 1) == x % Pow2(k)
  {
    if k > 0 {
      var m := Pow2(k - 1);
      AndLowMask(x / 2, k - 1);
      ModPow2(x, k);
      AndStep(x, 2 * m - 1);
      assert (2 * m - 1) / 2 == m - 1;
      assert Pow2(k) == 2 * m;
    }
  }

  /** A conjunction, two low bits apart that are both set, or both clear. */
  lemma {:induction false} AndTwoBits(x: nat, y: nat)
    ensures And(x, 4 * y + 3) == 4 * And(x / 4, y) + x % 4
    ensures And(x, 4 * y) == 4 * And(x / 4, y)
  {
    AndStep(x, 4 * y + 3);
    AndStep(x / 2, 2 * y + 1);
    AndEven(x, 2 * y);
    AndEven(x / 2, y);
    QuarterOf(x, y);
  }

  lemma QuarterOf(x: nat, y: nat)
    ensures x / 2 / 2 == x / 4 && x % 4 == 2 * (x / 2 % 2) + x % 2
    ensures (4 * y + 3) / 2 == 2 * y + 1 && (2 * y + 1) / 2 == y
  {
  }

  /** Clearing the low k bits of an n-bit word subtracts the remainder modulo 2^k. */
  lemma {:induction false} AndHighMask(x: nat, k: nat, n: nat)
    requires k <= n && x < Pow2(n)
    ensures Pow2(k) <= Pow2(n)
    ensures And(x, Pow2(n) - Pow2(k)) == x - x % Pow2(k)
  {
    Pow2Monotone(k, n);
    HighMask(x, k, n, Pow2(k), Pow2(n));
  }

  lemma {:induction false} HighMask(x: nat, k: nat, n: nat, a: nat, b: nat)
    requires k <= n && a == Pow2(k) && b == Pow2(n) && a <= b && x < b
    ensures And(x, b - a) == x - x % a
    decreases k
  {
    if k == 0 {
      AndAllOnes(x, n);
    } else {
      var h, m := Pow2(k - 1), Pow2(n - 1);
      assert a == 2 * h && b == 2 * m;
      HighMask(x / 2, k - 1, n - 1, h, m);
      HighStep(x, k, h, m);
    }
  }

  lemma {:induction false} HighStep(x: nat, k: nat, h: nat, m: nat)
    requires 0 < k && h == Pow2(k - 1) && h <= m
    requires And(x / 2, m - h) == x / 2 - (x / 2) % h
    ensures And(x, 2 * m - 2 * h) == x - x % (2 * h)
  {
    AndEven(x, m - h);
    ModPow2(x, k);
  }

  lemma AndAllOnes(x: nat, n: nat)
    requires x < Pow2(n)
    ensures And(x, Pow2(n) - Pow2(0)) == x - x % Pow2(0)
  {
    AndLowMask(x, n);
    ModUnique(x, Pow2(n), 0, x);
  }

  lemma AndEven(x: nat, y: nat)
    ensures And(x, 2 * y) == 2 * And(x / 2, y)
  {
    AndStep(x, 2 * y);
    assert 2 * y / 2 == y;
  }

  lemma {:induction false} Pow2Monotone(k: nat, n: nat)
    requires k <= n
    ensures Pow2(k) <= Pow2(n)
    decreases n
  {
    if k < n {
      Pow2Monotone(k, n - 1);
    }
  }

  lemma {:induction false} AndComplement(w: nat, n: nat)
    requires w < Pow2(n)
    ensures And(w, Pow2(n) - 1 - w) == 0
  {
    if n > 0 && w > 0 {
      AndComplement(w / 2, n - 1);
      assert (Pow2(n) - 1 - w) / 2 == Pow2(n - 1) - 1 - w / 2;
    }
  }

  /** In n-bit arithmetic `(-v) & v == v` exactly for the powers of two. */
  lemma {:induction false} AndNegate(v: nat, n: nat)
    requires 0 < v < Pow2(n)
    ensures And(Pow2(n) - v, v) == v <==> IsPowerOfTwo(v)
  {
    var u := v / 2;
    if v % 2 == 1 {
      AndComplement(u, n - 1);
      AndSymmetric(u, Pow2(n - 1) - 1 - u);
      assert (Pow2(n) - v) / 2 == Pow2(n - 1) - 1 - u;
      assert And(Pow2(n) - v, v) == 1;
      if v == 1 {
        assert v == Pow2(0);
      } else {
        forall k: nat ensures v != Pow2(k) {
          if k > 0 {
            assert Pow2(k) == 2 * Pow2(k - 1);
          }
        }
      }
    } else {
      AndNegate(u, n - 1);
      assert (Pow2(n) - v) / 2 == Pow2(n - 1) - u;
      assert And(Pow2(n) - v, v) == 2 * And(Pow2(n - 1) - u, u);
      if IsPowerOfTwo(u) {
        var k: nat :| u == Pow2(k);
        assert v == Pow2(k + 1);
      }
      if IsPowerOfTwo(v) {
        var k: nat :| v == Pow2(k);
        assert k > 0 && u == Pow2(k - 1);
      }
    }
  }

  lemma {:induction false} AndSymmetric(x: nat, y: nat)
    ensures And(x, y) == And(y, x)
  {
    if x != 0 && y != 0 {
      AndSymmetric(x / 2, y / 2);
    }
  }

  /** The driver's test `val == ((-val) & val)` holds of exactly zero and the powers of two. */
  lemma {:induction false} PowerOfTwoTest(v: nat)
    requires v < WORD
    ensures v == And(Negate(v), v) <==> v == 0 || IsPowerOfTwo(v)
  {
    if v > 0 {
      WordIsPow2();
      AndNegate(v, 32);
    }
  }

  lemma {:induction false} ModMask(x: nat, a: nat)
    requires IsPowerOfTwo(a)
    ensures And(x, a - 1) == x % a
  {
    var k: nat :| a == Pow2(k);
    AndLowMask(x, k);
  }

  /** The least multiple of a that is at least x. */
  function RoundUp(x: nat, a: nat): (r: nat)
    requires a > 0
    ensures x <= r < x + a
  {
    if x == 0 then 0 else if x <= a then a else a + RoundUp(x - a, a)
  }

  lemma {:induction false} RoundUpIsMultiple(x: nat, a: nat)
    requires a > 0
    ensures exists q: nat :: RoundUp(x, a) == a * q
    decreases x
  {
    if x == 0 {
      assert RoundUp(x, a) == a * 0;
    } else if x <= a {
      assert RoundUp(x, a) == a * 1;
    } else {
      RoundUpIsMultiple(x - a, a);
      var q: nat :| RoundUp(x - a, a) == a * q;
      assert RoundUp(x, a) == a * (q + 1);
    }
  }

  /** Rounding up with one division. */
  lemma {:induction false} RoundUpByDivision(x: nat, a: nat)
    requires a > 0
    ensures RoundUp(x, a) == x + (a - 1) - (x + (a - 1)) % a
  {
    RoundUpIsMultiple(x, a);
    var q: nat :| RoundUp(x, a) == a * q;
    ModUnique(x + (a - 1), a, q, x + (a - 1) - RoundUp(x, a));
  }

  /** Division of x by a leaves r. */
  predicate Leaves(x: nat, a: nat, r: nat)
    requires a > 0
  {
    if x < a then x == r else Leaves(x - a, a, r)
  }

  lemma {:induction false} LeavesRemainder(x: nat, a: nat, r: nat)
    requires a > 0
    ensures Leaves(x, a, r) <==> x % a == r
    decreases x
  {
    if x < a {
      ModUnique(x, a, 0, x);
    } else {
      LeavesRemainder(x - a, a, r);
      var q, t := (x - a) / a, (x - a) % a;
      assert a * (q + 1) == a * q + a;
      ModUnique(x, a, q + 1, t);
    }
  }

  /** For a power of two, ALIGN gives the least multiple of it that is not below x. */
  lemma {:induction false} AlignMeaning(x: nat, a: nat)
    requires IsPowerOfTwo(a) && a < WORD && x + a <= WORD
    ensures AlignWord(x, a) == RoundUp(x, a)
  {
    var k: nat :| a == Pow2(k);
    WordIsPow2();
    if k > 32 {
      Pow2Monotone(32, k);
    }
    AlignUnfold(x, a);
    RoundUpByDivision(x, a);
    AndHighMask(x + (a - 1), k, 32);
  }

  lemma AlignUnfold(x: nat, a: nat)
    requires 0 < a < WORD && x + a <= WORD
    ensures AlignWord(x, a) == And(x + (a - 1), WORD - a)
  {
    assert (x + (a - 1)) % WORD == x + (a - 1);
  }
}
