/** Machine integers of fixed width. */
module Bytes {
  type Byte = x: int | 0 <= x < 256
  type Word = x: int | 0 <= x < 65536
  type Word32 = x: int | 0 <= x < 0x1_0000_0000
  type Word128 = x: int | 0 <= x < 0x1_0000_0000_0000_0000_0000_0000_0000_0000
}

/** Powers of two. */
module Powers {
  function Pow2(n: nat): (p: nat)
    ensures p >= 1
  {
    if n == 0 then 1 else 2 * Pow2(n - 1)
  }

  lemma {:induction false} Pow2Grows(k: nat, n: nat)
    requires k <= n
    ensures Pow2(k) <= Pow2(n)
  {
    if k == n {
    } else {
      Pow2Grows(k, n - 1);
    }
  }

  lemma {:induction false} Pow2Adds(a: nat, b: nat)
    ensures Pow2(a + b) == Pow2(a) * Pow2(b)
  {
    if a == 0 {
    } else {
      Pow2Adds(a - 1, b);
      assert Pow2(a + b) == 2 * Pow2(a - 1 + b);
      assert Pow2(a) * Pow2(b) == 2 * (Pow2(a - 1) * Pow2(b));
    }
  }

  lemma Pow2Of32()
    ensures Pow2(8) == 256 && Pow2(16) == 65536 && Pow2(24) == 0x100_0000 && Pow2(32) == 0x1_0000_0000
  {
    assert Pow2(4) == 16;
    assert Pow2(8) == 16 * Pow2(4);
    assert Pow2(12) == 16 * Pow2(8);
    assert Pow2(16) == 16 * Pow2(12);
    assert Pow2(20) == 16 * Pow2(16);
    assert Pow2(24) == 16 * Pow2(20);
    assert Pow2(28) == 16 * Pow2(24);
    assert Pow2(32) == 16 * Pow2(28);
  }

  lemma ProductGap(size: nat, a: int, b: int)
    requires a < b
    ensures size * a + size <= size * b
  {
    assert size * b == size * a + size + size * (b - a - 1);
  }

  lemma QuotientInterval(size: nat, q: int, e: int, r: nat)
    requires r < size
    ensures q == e <==> size * q <= size * e + r < size * q + size
  {
    if e < q {
      ProductGap(size, e, q);
    } else if q < e {
      ProductGap(size, q, e);
    }
  }

  lemma DivisionIs(n: nat, size: nat)
    requires size >= 1
    ensures n == size * (n / size) + n % size && size * (n / size) >= 0
  {
    ProductGrows(size, 0, n / size);
  }

  lemma ProductGrows(size: nat, a: int, b: int)
    requires a <= b
    ensures size * a <= size * b
  {
  }

  lemma QuotientIs(x: nat, size: nat, q: nat)
    requires size >= 1 && size * q <= x < size * q + size
    ensures x / size == q
  {
    QuotientInterval(size, q, x / size, x % size);
  }

  /** Dividing by twice the size is halving the quotient. */
  lemma HalfQuotient(x: nat, size: nat)
    requires size >= 1
    ensures x / (2 * size) == x / size / 2
  {
    var q := x / size;
    var h, b := q / 2, q % 2;
    assert size * q == 2 * size * h + size * b by {
      assert q == 2 * h + b;
      assert size * (2 * h + b) == size * (2 * h) + size * b;
    }
    QuotientIs(x, 2 * size, h);
  }

  /** Numbers with the same quotient have the same quotients by larger powers. */
  lemma {:induction false} LargerQuotients(a: nat, b: nat, i: nat, j: nat)
    requires i <= j && a / Pow2(i) == b / Pow2(i)
    ensures a / Pow2(j) == b / Pow2(j)
  {
    if i == j {
    } else {
      LargerQuotients(a, b, i, j - 1);
      HalfQuotient(a, Pow2(j - 1));
      HalfQuotient(b, Pow2(j - 1));
    }
  }

  lemma NextQuotient(a: nat, size: nat)
    requires size >= 1
    ensures (a + size) / size == a / size + 1
  {
    var q := a / size;
    assert size * (q + 1) == size * q + size;
    QuotientIs(a + size, size, q + 1);
  }

  /** A number that differs from `a` in bit `i`, and in no bit above it. */
  lemma Sibling(a: nat, i: nat) returns (b: nat)
    ensures a / Pow2(i) != b / Pow2(i) && a / Pow2(i + 1) == b / Pow2(i + 1)
  {
    var size := Pow2(i);
    if a / size % 2 == 0 {
      b := a + size;
      NextQuotient(a, size);
    } else {
      b := if a >= size then a - size else 0;
      QuotientIs(if a < size then a else 0, size, 0);
      NextQuotient(b, size);
    }
    HalfQuotient(a, size);
    HalfQuotient(b, size);
  }
}
