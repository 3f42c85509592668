/** Powers of two, bitwise conjunction by bit recursion, and the modular facts that
    mask indexing and fixed-width positions rest on. */
module Bits {

  const WORD64: nat := 0x1_0000_0000_0000_0000
  const WORD32: nat := 0x1_0000_0000

  function Pow2(k: nat): (p: nat)
    ensures p >= 1
  {
    if k == 0 then 1 else 2 * Pow2(k - 1)
  }

  /** `x & y`, one bit at a time. */
  function And(x: nat, y: nat): nat
  {
    if x == 0 || y == 0 then 0
    else 2 * And(x / 2, y / 2) + (if x % 2 == 1 && y % 2 == 1 then 1 else 0)
  }

  /** Dividing by p and by 2p: the remainder modulo 2p keeps the lowest bit. */
  lemma ModDouble(x: nat, p: nat)
    requires p >= 1
    ensures x % (2 * p) == 2 * ((x / 2) % p) + x % 2
  {
    var h := x / 2;
    var q := h / p;
    assert x == (2 * p) * q + (2 * (h % p) + x % 2) by {
      assert h == p * q + h % p;
    }
    ModUnique(x, 2 * p, q, 2 * (h % p) + x % 2);
  }

  /** A non-zero multiple of c is at least c away from zero. */
  lemma MultipleIsFar(c: nat, d: int)
    ensures d >= 1 ==> c * d >= c
    ensures d <= -1 ==> c * d + c <= 0
  {
    if d >= 1 {
      assert c * d == c + c * (d - 1);
    } else if d <= -1 {
      assert c * d == c * (d + 1) - c;
    }
  }

  /** Euclidean division is unique. */
  lemma ModUnique(x: int, c: nat, q: int, r: int)
    requires c >= 1 && 0 <= r < c && x == c * q + r
    ensures x % c == r && x / c == q
  {
    var d := q - x / c;
    MultipleIsFar(c, d);
    assert c * d == c * q - c * (x / c);
    assert d == 0;
  }

  /** Masking with a power of two minus one is the remainder modulo that power. */
  lemma {:induction false} AndMask(x: nat, k: nat)
    ensures And(x, Pow2(k) - 1) == x % Pow2(k)
    ensures And(x, Pow2(k) - 1) < Pow2(k)
  {
    if k == 0 {
      assert x % 1 == 0;
    } else {
      var m := Pow2(k - 1);
      AndMask(x / 2, k - 1);
      ModDouble(x, m);
      AndOddMask(x, m);
    }
  }

  /** One step of `And` against the mask 2m - 1. */
  lemma AndOddMask(x: nat, m: nat)
    requires m >= 1
    ensures And(x, 2 * m - 1) == 2 * And(x / 2, m - 1) + x % 2
  {
    assert (2 * m - 1) / 2 == m - 1 && (2 * m - 1) % 2 == 1;
  }

  lemma {:induction false} Pow2Sum(a: nat, b: nat)
    ensures Pow2(a + b) == Pow2(a) * Pow2(b)
  {
    if a != 0 {
      Pow2Sum(a - 1, b);
      assert Pow2(a + b) == 2 * Pow2(a - 1 + b);
      MulAssoc(2, Pow2(a - 1), Pow2(b));
    }
  }

  lemma MulAssoc(x: int, y: int, z: int)
    ensures (x * y) * z == x * (y * z)
  {}

  lemma MulSum(c: int, x: int, y: int)
    ensures c * (x + y) == c * x + c * y
  {}

  lemma DivMod(x: int, c: nat)
    requires c >= 1
    ensures x == c * (x / c) + x % c && 0 <= x % c < c
  {}

  lemma Words()
    ensures Pow2(32) == WORD32 && Pow2(64) == WORD64
  {
    assert Pow2(2) == 4;
    Pow2Sum(2, 2);
    Pow2Sum(4, 4);
    Pow2Sum(8, 8);
    Pow2Sum(16, 16);
    Pow2Sum(32, 32);
  }

  /** A multiple of c added to x leaves the remainder alone. */
  lemma ModShift(x: int, c: nat, q: int)
    requires c >= 1
    ensures (x + c * q) % c == x % c
  {
    DivMod(x, c);
    MulSum(c, x / c, q);
    ModUnique(x + c * q, c, x / c + q, x % c);
  }

  /** Truncating to a multiple of c does not change the remainder modulo c. */
  lemma ModOfMod(x: int, c: nat, m: nat)
    requires c >= 1 && m >= 1 && c * m >= 1
    ensures (x % (c * m)) % c == x % c
  {
    var w := c * m;
    DivMod(x, w);
    MulAssoc(c, m, x / w);
    ModShift(x % w, c, m * (x / w));
  }

  /** Truncating to a word that is at least 2^k wide does not change the remainder modulo 2^k. */
  lemma TruncateMod(x: nat, n: nat, k: nat)
    requires k <= n
    ensures (x % Pow2(n)) % Pow2(k) == x % Pow2(k)
  {
    Pow2Sum(k, n - k);
    ModOfMod(x, Pow2(k), Pow2(n - k));
  }

  /** (x % w + y) % w == (x + y) % w. */
  lemma ModAdd(x: int, y: int, w: nat)
    requires w >= 1
    ensures (x % w + y) % w == (x + y) % w
  {
    DivMod(x, w);
    ModShift(x % w + y, w, x / w);
  }

  lemma ModSub(x: int, y: int, w: nat)
    requires w >= 1
    ensures (x % w - y % w) % w == (x - y) % w
  {
    DivMod(x, w);
    DivMod(y, w);
    MulSum(w, x / w - y / w, y / w);
    ModShift(x % w - y % w, w, x / w - y / w);
  }

  /** Two positions less than c apart land on different slots. */
  lemma ModDistinct(x: int, y: int, c: nat)
    requires c >= 1 && x < y < x + c
    ensures x % c != y % c
  {
    var d := y / c - x / c;
    MultipleIsFar(c, d);
    assert c * d == c * (y / c) - c * (x / c);
    assert y - x == c * d + (y % c - x % c);
  }

  /** Moving d forward from p inside one lap. */
  lemma ModStep(p: int, d: nat, c: nat)
    requires c >= 1 && p % c + d < c
    ensures (p + d) % c == p % c + d
  {
    assert p + d == c * (p / c) + (p % c + d);
    ModUnique(p + d, c, p / c, p % c + d);
  }

  /** Moving d forward from p across exactly one lap boundary. */
  lemma ModWrap(p: int, d: nat, c: nat)
    requires c >= 1 && c <= p % c + d < 2 * c
    ensures (p + d) % c == p % c + d - c
  {
    assert p + d == c * (p / c + 1) + (p % c + d - c) by {
      assert c * (p / c + 1) == c * (p / c) + c;
    }
    ModUnique(p + d, c, p / c + 1, p % c + d - c);
  }
}
