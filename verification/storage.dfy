/** The storage type every unit of the tests and examples uses: C's `uint32_t`,
    with its wrapping multiplication and truncating division written out. */
module Storage {

  /** 2^32: unsigned arithmetic on `uint32_t` is carried out modulo this number. */
  const Modulus: int := 0x1_0000_0000

  newtype u32 = x: int | 0 <= x < 0x1_0000_0000

  /** `a * b` on `uint32_t`: the exact product when it fits, and in every case
      a value congruent to the exact product modulo 2^32. */
  function Mul(a: u32, b: u32): (r: u32)
    ensures a as int * b as int < Modulus ==> r as int == a as int * b as int
    ensures (a as int * b as int - r as int) % Modulus == 0
  {
    WrapFacts(a as int * b as int);
    ((a as int * b as int) % Modulus) as u32
  }

  /** Reduction modulo 2^32 of a non-negative number, the step behind Mul. */
  lemma WrapFacts(p: int)
    requires 0 <= p
    ensures 0 <= p % Modulus < Modulus
    ensures p < Modulus ==> p % Modulus == p
    ensures (p - p % Modulus) % Modulus == 0
  {
    var q := p / Modulus;
    assert p == q * Modulus + p % Modulus;
    assert p - p % Modulus == q * Modulus;
  }

  /** `a / b` on `uint32_t`: the quotient truncated toward zero, that is the
      largest `r` with `r * b <= a`. */
  function Div(a: u32, b: u32): (r: u32)
    requires b != 0
    ensures r as int * b as int <= a as int < (r as int + 1) * b as int
    ensures r <= a
  {
    DivFacts(a as int, b as int);
    (a as int / b as int) as u32
  }

  /** Euclidean division of a non-negative number by a positive one, the step behind Div. */
  lemma DivFacts(a: int, b: int)
    requires 0 <= a && 0 < b
    ensures 0 <= a / b <= a
    ensures (a / b) * b <= a < (a / b + 1) * b
  {
    var q, m := a / b, a % b;
    assert a == q * b + m;
    assert (q + 1) * b == q * b + b;
    if q > a {
      MulMonotone(a + 1, q, b);
      assert false;
    }
  }

  /** The two bounds in Div's contract determine the quotient. */
  lemma DivUnique(a: u32, b: u32, q: int)
    requires b != 0
    requires q * b as int <= a as int < (q + 1) * b as int
    ensures Div(a, b) as int == q
  {
    var r := Div(a, b) as int;
    if r < q {
      MulMonotone(r + 1, q, b as int);
      assert false;
    } else if q < r {
      MulMonotone(q + 1, r, b as int);
      assert false;
    }
  }

  /** Multiplying by a non-negative factor keeps the order. */
  lemma MulMonotone(x: int, y: int, k: int)
    requires x <= y && 0 <= k
    ensures x * k <= y * k
  {
    assert y * k - x * k == (y - x) * k;
  }

  /** Truncating division by a fixed divisor keeps the order. */
  lemma DivMonotone(a: u32, b: u32, d: u32)
    requires d != 0 && a <= b
    ensures Div(a, d) <= Div(b, d)
  {
    var qa, qb := Div(a, d) as int, Div(b, d) as int;
    if qb < qa {
      MulMonotone(qb + 1, qa, d as int);
      assert false;
    }
  }
}
