/** Small facts about products, quotients and powers of two. */
module Arith {

  function Pow2(n: nat): (r: nat)
    ensures r >= 1
  {
    if n == 0 then 1 else 2 * Pow2(n - 1)
  }

  lemma MulUp(m: int, a: int, b: int)
    requires m >= 0 && a <= b
    ensures m * a <= m * b
  {
  }

  lemma TimesNext(m: int, w: int)
    ensures (m + 1) * w == m * w + w
  {
  }

  lemma {:induction false} Pow2Add(a: nat, b: nat)
    ensures Pow2(a + b) == Pow2(a) * Pow2(b)
  {
    if a == 0 {
    } else {
      Pow2Add(a - 1, b);
      var x, y := Pow2(a - 1), Pow2(b);
      assert 2 * (x * y) == (2 * x) * y;
    }
  }

  lemma Pow2Eight(n: nat)
    ensures Pow2(n + 8) == 256 * Pow2(n)
  {
    Pow2Small();
    Pow2Add(8, n);
  }

  lemma Pow2Small()
    ensures Pow2(0) == 1 && Pow2(1) == 2 && Pow2(2) == 4 && Pow2(8) == 256
  {
    assert Pow2(8) == 2 * Pow2(7) == 4 * Pow2(6) == 8 * Pow2(5) == 16 * Pow2(4) == 32 * Pow2(3) == 64 * Pow2(2);
  }

  lemma Pow2Of32()
    ensures Pow2(32) == 0x1_0000_0000
  {
    Pow2Small();
    Pow2Eight(24);
    Pow2Eight(16);
    Pow2Eight(8);
  }

  lemma SmallMultiple(m: int, d: int)
    requires m > 0 && -m < m * d < m
    ensures d == 0
  {
    if d >= 1 {
      MulUp(m, 1, d);
    }
    if d <= -1 {
      MulUp(m, d, -1);
    }
  }

  lemma QuotientOf(a: int, m: int, q: int, r: int)
    requires m > 0 && a == m * q + r && 0 <= r < m
    ensures a / m == q && a % m == r
  {
    assert a == m * (a / m) + a % m;
    assert m * (a / m - q) == m * (a / m) - m * q;
    SmallMultiple(m, a / m - q);
  }

  lemma RestBelow(x: nat, m: nat)
    requires m > 0
    ensures x % m <= x
  {
    if x < m {
      QuotientOf(x, m, 0, x);
    }
  }

  /** A number given by four base-256 digits has these digits. */
  lemma FromDigits(a: nat, b: nat, c: nat, d: nat, x: nat)
    requires a < 256 && b < 256 && c < 256 && d < 256 && x == a + 256 * b + 65536 * c + 16777216 * d
    ensures x % 256 == a && x / 256 % 256 == b && x / 65536 % 256 == c && x / 16777216 == d
  {
    QuotientOf(x, 256, b + 256 * c + 65536 * d, a);
    QuotientOf(x / 256, 256, c + 256 * d, b);
    QuotientOf(x, 65536, c + 256 * d, a + 256 * b);
    QuotientOf(c + 256 * d, 256, d, c);
    QuotientOf(x, 16777216, d, a + 256 * b + 65536 * c);
  }

  /** The four base-256 digits of a number. */
  lemma FourDigits(v: nat)
    ensures v == v % 256 + 256 * (v / 256 % 256) + 65536 * (v / 65536 % 256) + 16777216 * (v / 16777216)
  {
    var a := v / 256;
    var b := a / 256;
    assert v / 65536 == b;
    assert v / 16777216 == b / 256;
  }

  /** w is v plus one modulo m. */
  predicate IsPlusOne(v: int, w: int, m: int)
    requires m > 0
  {
    w == (v + 1) % m
  }

  lemma StepMod(v: int, m: int, w: int)
    requires 0 <= v < m
    requires w == if v + 1 == m then 0 else v + 1
    ensures IsPlusOne(v, w, m)
  {
    if v + 1 == m {
      QuotientOf(v + 1, m, 1, 0);
    } else {
      QuotientOf(v + 1, m, 0, v + 1);
    }
  }

  /** Two-part numbers are equal exactly when their parts are. */
  lemma PartsEqual(a: int, b: int, c: int, d: int, m: int)
    requires m > 0 && 0 <= c < m && 0 <= d < m
    ensures m * a + c == m * b + d <==> a == b && c == d
  {
    QuotientOf(m * a + c, m, a, c);
    QuotientOf(m * b + d, m, b, d);
  }

  /** Same cleared low part: same quotient. */
  lemma ClearedLow(a: int, b: int, m: int)
    requires m > 0
    ensures a - a % m == b - b % m <==> a / m == b / m
  {
    assert a == m * (a / m) + a % m;
    assert b == m * (b / m) + b % m;
    PartsEqual(a / m, b / m, 0, 0, m);
  }

  /** The numbers with the quotient of an aligned number are the m numbers from it on. */
  lemma SameBlock(base: int, v: int, m: int)
    requires m > 0 && base % m == 0
    ensures base / m == v / m <==> base <= v < base + m
  {
    assert base == m * (base / m);
    assert v == m * (v / m) + v % m;
    if base <= v < base + m {
      QuotientOf(v, m, base / m, v - base);
    }
  }

  /** An aligned number below a multiple leaves room for its block. */
  lemma BlockFits(base: int, m: int, p: int)
    requires m > 0 && base % m == 0 && base < p * m
    ensures base + m <= p * m
  {
    var q := base / m;
    assert base == m * q;
    if q >= p {
      MulUp(m, p, q);
    } else {
      MulUp(m, q + 1, p);
      assert m * (q + 1) == base + m;
    }
  }

  /** A quotient by 256 * m drops the last byte first. */
  lemma DropLast(front: int, last: int, m: int)
    requires m > 0 && 0 <= last < 256
    ensures (256 * front + last) / (256 * m) == front / m
  {
    var q, r := front / m, front % m;
    assert front == m * q + r;
    assert 256 * front + last == (256 * m) * q + (256 * r + last);
    QuotientOf(256 * front + last, 256 * m, q, 256 * r + last);
  }

  /** A quotient by a divisor of 256 keeps the upper part of the last byte. */
  lemma KeepUpper(front: int, last: int, m: int, k: int)
    requires m > 0 && k > 0 && m * k == 256 && 0 <= last < 256
    ensures (256 * front + last) / m == k * front + last / m
    ensures 0 <= last / m < k
  {
    var q, r := last / m, last % m;
    assert last == m * q + r;
    assert m * (k * front + q) == (m * k) * front + m * q;
    QuotientOf(256 * front + last, m, k * front + q, r);
    if q >= k {
      MulUp(m, k, q);
    }
    if q < 0 {
      MulUp(m, q, -1);
    }
  }

  /** Two numbers agree above a cut within their last byte exactly when their fronts are equal and their last
      bytes agree with the low part cleared. */
  lemma TailEqual(a: int, b: int, x: int, y: int, m: int, k: int)
    requires m > 0 && k > 0 && m * k == 256 && 0 <= x < 256 && 0 <= y < 256
    ensures (256 * a + x) / m == (256 * b + y) / m <==> a == b && x - x % m == y - y % m
  {
    KeepUpper(a, x, m, k);
    KeepUpper(b, y, m, k);
    PartsEqual(a, b, x / m, y / m, k);
    ClearedLow(x, y, m);
  }
}
