/** Machine words and the bit operators the kernel's C code uses on them.

    A word is a number below 2^64.  The bitwise operators are defined by halving, so that
    facts about them are proved by induction on the bits. */
module Words {
  const TWO64 := 0x1_0000_0000_0000_0000
  const PGSIZE: nat := 4096

  /** The start of the page an address lies in. */
  function Rounddown(v: nat): nat { v / PGSIZE * PGSIZE }

  type Word = w: nat | w < 0x1_0000_0000_0000_0000

  function Pow2(k: nat): (p: nat)
    ensures p > 0
  {
    if k == 0 then 1 else 2 * Pow2(k - 1)
  }

  /** Logical shift right. */
  function Shr(v: nat, k: nat): nat
    decreases k, v
  {
    if k == 0 then v else Shr(v, k - 1) / 2
  }

  /** v * 2^k, by doubling. */
  function Up(v: nat, k: nat): (r: nat)
    ensures r >= v
    decreases k, v
  {
    if k == 0 then v else 2 * Up(v, k - 1)
  }

  /** Logical shift left of a 64-bit word. */
  function Shl(v: nat, k: nat): Word {
    Up(v, k) % TWO64
  }

  predicate Bit(v: nat, k: nat) {
    Shr(v, k) % 2 == 1
  }

  /** C's `|`. */
  function Or(a: nat, b: nat): (r: nat)
    ensures r >= a && r >= b
    decreases a + b
  {
    if a == 0 then b
    else if b == 0 then a
    else 2 * Or(a / 2, b / 2) + (if a % 2 == 1 || b % 2 == 1 then 1 else 0)
  }

  /** C's `&`. */
  function And(a: nat, b: nat): (r: nat)
    decreases a + b
  {
    if a == 0 || b == 0 then 0
    else 2 * And(a / 2, b / 2) + (if a % 2 == 1 && b % 2 == 1 then 1 else 0)
  }

  lemma {:induction false} OrAssociative(a: nat, b: nat, c: nat)
    ensures Or(Or(a, b), c) == Or(a, Or(b, c))
    decreases a + b + c
  {
    if a != 0 && b != 0 && c != 0 {
      OrAssociative(a / 2, b / 2, c / 2);
      assert Or(a, b) != 0 && Or(a, b) / 2 == Or(a / 2, b / 2);
      assert Or(b, c) != 0 && Or(b, c) / 2 == Or(b / 2, c / 2);
    }
  }

  lemma {:induction false} OrBound(r: nat, s: nat, k: nat)
    requires r < Pow2(k) && s < Pow2(k)
    ensures Or(r, s) < Pow2(k)
    decreases k
  {
    if k > 0 {
      OrBound(r / 2, s / 2, k - 1);
    }
  }

  /** Or works on the low k bits and the rest separately. */
  lemma {:induction false} OrSplit(x: nat, r: nat, y: nat, s: nat, k: nat)
    requires r < Pow2(k) && s < Pow2(k)
    ensures Or(Up(x, k) + r, Up(y, k) + s) == Up(Or(x, y), k) + Or(r, s)
    decreases k
  {
    if k == 0 {
      assert Up(x, k) + r == x && Up(y, k) + s == y && Up(Or(x, y), k) == Or(x, y) && Or(r, s) == 0;
    } else {
      hide Or;
      OrSplit(x, r / 2, y, s / 2, k - 1);
      OrSplitStep(Up(x, k - 1), r, Up(y, k - 1), s, Up(Or(x, y), k - 1));
    }
  }

  lemma OrSplitStep(x: nat, r: nat, y: nat, s: nat, z: nat)
    requires Or(x + r / 2, y + s / 2) == z + Or(r / 2, s / 2)
    ensures Or(2 * x + r, 2 * y + s) == 2 * z + Or(r, s)
  {
    hide Or;
    OrDouble(x + r / 2, r % 2, y + s / 2, s % 2);
    OrDouble(r / 2, r % 2, s / 2, s % 2);
    assert 2 * (x + r / 2) + r % 2 == 2 * x + r && 2 * (y + s / 2) + s % 2 == 2 * y + s;
    assert 2 * (r / 2) + r % 2 == r && 2 * (s / 2) + s % 2 == s;
  }

  lemma OrDouble(a: nat, c: nat, b: nat, d: nat)
    requires c < 2 && d < 2
    ensures Or(2 * a + c, 2 * b + d) == 2 * Or(a, b) + (if c == 1 || d == 1 then 1 else 0)
  {
    assert (2 * a + c) / 2 == a && (2 * b + d) / 2 == b;
  }

  /** A field of low bits and a multiple of 2^k do not overlap, so `|` adds them. */
  lemma OrIsPlus(x: nat, s: nat, k: nat)
    requires s < Pow2(k)
    ensures Or(Up(x, k), s) == Up(x, k) + s
  {
    UpZero(k);
    OrSplit(x, 0, 0, s, k);
  }

  lemma UpZero(k: nat)
    ensures Up(0, k) == 0
  {
  }

  lemma {:induction false} UpIsMul(v: nat, k: nat)
    ensures Up(v, k) == v * Pow2(k)
  {
    if k > 0 {
      UpIsMul(v, k - 1);
      assert v * (2 * Pow2(k - 1)) == 2 * (v * Pow2(k - 1));
    }
  }

  lemma OrCommutative(a: nat, b: nat)
    ensures Or(a, b) == Or(b, a)
    decreases a + b
  {
  }

  lemma {:induction false} ShrIsDiv(v: nat, k: nat)
    ensures Shr(v, k) == v / Pow2(k)
    decreases k
  {
    if k > 0 {
      ShrIsDiv(v, k - 1);
      DivTwice(v, Pow2(k - 1));
    }
  }

  lemma DivTwice(v: nat, d: nat)
    requires d > 0
    ensures v / d / 2 == v / (2 * d)
  {
    var q, r := v / d, v % d;
    assert v == d * q + r;
    var q2, b := q / 2, q % 2;
    assert d * q == d * (2 * q2 + b) == (2 * d) * q2 + d * b;
    DivUnique(v, 2 * d, q2, d * b + r);
  }

  lemma DivUnique(v: int, d: int, q: int, r: int)
    requires d > 0 && v == d * q + r && 0 <= r < d
    ensures v / d == q
  {
    var e := q - v / d;
    assert d * e == d * q - d * (v / d);
    assert -d < d * e < d;
    AtLeastOnce(d, e);
    AtLeastOnce(d, -e);
    assert d * -e == -(d * e);
  }

  lemma AtLeastOnce(d: int, e: int)
    requires d > 0
    ensures e >= 1 ==> d * e >= d
  {
  }

  /** The test `(1 << k) & v` that the kernel's bit loops use. */
  lemma {:induction false} AndPow2(v: nat, k: nat)
    ensures And(Pow2(k), v) != 0 <==> Bit(v, k)
    decreases k
  {
    if k == 0 {
      assert And(1, v) == if v % 2 == 1 then 1 else 0;
    } else {
      AndPow2(v / 2, k - 1);
      ShrHalf(v, k - 1);
      if v == 0 {
        ShrIsDiv(0, k);
        assert 0 / Pow2(k) == 0;
      }
    }
  }

  lemma {:induction false} ShrHalf(v: nat, k: nat)
    ensures Shr(v / 2, k) == Shr(v, k + 1)
  {
    if k > 0 { ShrHalf(v, k - 1); }
  }

  lemma {:induction false} Pow2Monotone(j: nat, k: nat)
    requires j <= k
    ensures Pow2(j) <= Pow2(k)
    decreases k - j
  {
    if j < k { Pow2Monotone(j, k - 1); }
  }

  lemma Pow2Values()
    ensures Pow2(9) == 512 && Pow2(12) == 4096 && Pow2(21) == 0x20_0000
    ensures Pow2(30) == 0x4000_0000 && Pow2(36) == 0x10_0000_0000 && Pow2(39) == 0x80_0000_0000
    ensures Pow2(40) == 0x100_0000_0000 && Pow2(47) == 0x8000_0000_0000
    ensures Pow2(48) == 0x1_0000_0000_0000 && Pow2(52) == 0x10_0000_0000_0000
    ensures Pow2(64) == TWO64
  {
    assert Pow2(4) == 16;
    assert Pow2(8) == 256;
    assert Pow2(12) == 4096;
    assert Pow2(16) == 0x1_0000;
    assert Pow2(20) == 0x10_0000;
    assert Pow2(24) == 0x100_0000;
    assert Pow2(28) == 0x1000_0000;
    assert Pow2(32) == 0x1_0000_0000;
    assert Pow2(36) == 0x10_0000_0000;
    assert Pow2(40) == 0x100_0000_0000;
    assert Pow2(44) == 0x1000_0000_0000;
    assert Pow2(48) == 0x1_0000_0000_0000;
    assert Pow2(52) == 0x10_0000_0000_0000;
    assert Pow2(56) == 0x100_0000_0000_0000;
    assert Pow2(60) == 0x1000_0000_0000_0000;
  }

  lemma Pow64()
    ensures Pow2(64) == TWO64
  {
    Pow2Values();
  }

  /** `1 << k` does not lose its bit. */
  lemma ShlOne(k: nat)
    requires k < 64
    ensures Shl(1, k) == Pow2(k) < TWO64
  {
    Pow64();
    Pow2Monotone(k + 1, 64);
    UpIsMul(1, k);
  }
}
