/** Directed rational conversions between two units on `uint32_t` storage:
    the explicitly named form and its two shorthands. */
module Conversions {
  import opened Storage
  import opened Units
  import Naming

  /** A declared conversion from the unit tagged `From` (named `fromName`) to
      the unit tagged `To` (named `toName`): the name fragment of the
      generated function, the numerator and the denominator. Declaring one
      direction declares nothing about the other. */
  datatype Conversion<From, To> = Conversion(fromName: string, toName: string, explicative: string, n: u32, d: u32)

  /** The shorthand that names the conversion after both units: its function
      is called `"from" + from + "_to" + to`, and it keeps the fraction. */
  function FractionConversion<From, To>(fromName: string, toName: string, n: u32, d: u32): (c: Conversion<From, To>)
    ensures Name(c) == "from" + fromName + "_to" + toName
    ensures c.n == n && c.d == d
  {
    Naming.DefaultConversionNameShape(fromName, toName);
    Conversion(fromName, toName, Naming.DefaultExplicative(fromName), n, d)
  }

  /** The shorthand for an integer factor: the fraction `factor / 1`. */
  function FactorConversion<From, To>(fromName: string, toName: string, factor: u32): Conversion<From, To>
  {
    FractionConversion(fromName, toName, factor, 1)
  }

  /** The name of the generated function: fragment followed by destination. */
  function Name<From, To>(c: Conversion<From, To>): string
  {
    Naming.ExplicitConversionName(c.explicative, c.toName)
  }

  /** The raw arithmetic of a conversion, `(x * n) / d` on `uint32_t`: the
      product is taken first, reduced modulo 2^32, and the result is the
      truncated quotient of that reduced product by `d`. */
  function Scale(x: u32, n: u32, d: u32): (r: u32)
    requires d != 0
    ensures x as int * n as int < Modulus ==>
              r as int * d as int <= x as int * n as int < (r as int + 1) * d as int
    ensures r as int * d as int <= Mul(x, n) as int < (r as int + 1) * d as int
  {
    Div(Mul(x, n), d)
  }

  /** Line 28 pastes its denominator argument without parentheses. Given a
      denominator written as a product of two literals, `dl * dr`, the
      expansion `(x * n) / dl * dr` groups as `((x * n) / dl) * dr`. */
  function ScaleProductAsWritten(x: u32, n: u32, dl: u32, dr: u32): u32
    requires dl != 0
  {
    Mul(Div(Mul(x, n), dl), dr)
  }

  /** The evidently intended reading of the same declaration: the product is
      the denominator. */
  function ScaleProduct(x: u32, n: u32, dl: u32, dr: u32): u32
    requires 0 < dl as int * dr as int < Modulus
  {
    Scale(x, n, (dl as int * dr as int) as u32)
  }

  /** The millivolt-to-volt conversion with its denominator written
      `10 * 100` turns 5000 into 50000 as written, not into 5. */
  lemma ProductDenominatorAsWritten()
    ensures ScaleProductAsWritten(5000, 1, 10, 100) == 50000
    ensures ScaleProduct(5000, 1, 10, 100) == 5
  {
    DivUnique(Mul(5000, 1), 10, 500);
    DivUnique(Mul(5000, 1), 1000, 5);
  }

  /** Read as intended, a denominator written as a product undoes the
      matching integer factor whenever the scaled value fits in 32 bits. */
  lemma ProductDenominatorRoundTrip(x: u32, dl: u32, dr: u32)
    requires 0 < dl as int * dr as int < Modulus
    requires x as int * (dl as int * dr as int) < Modulus
    ensures ScaleProduct(Scale(x, (dl as int * dr as int) as u32, 1), 1, dl, dr) == x
  {
    ScaleRoundTrip(x, (dl as int * dr as int) as u32);
  }

  /** The function a conversion declaration generates: a fresh value of the
      destination unit holding the scaled raw value of the source. */
  function Apply<From, To>(c: Conversion<From, To>, u: Unit<From, u32>): Unit<To, u32>
    requires c.d != 0
  {
    Unit(Scale(Get(u), c.n, c.d))
  }

  /** Both shorthands are named `"from" + from + "_to" + to`; the factor form
      is the fraction form over 1, so it multiplies modulo 2^32. */
  lemma Shorthands<From, To>(fromName: string, toName: string, n: u32, d: u32, factor: u32, u: Unit<From, u32>)
    ensures Name(FractionConversion<From, To>(fromName, toName, n, d)) == "from" + fromName + "_to" + toName
    ensures Name(FactorConversion<From, To>(fromName, toName, factor)) == "from" + fromName + "_to" + toName
    ensures FactorConversion<From, To>(fromName, toName, factor) == FractionConversion(fromName, toName, factor, 1)
    ensures Get(Apply(FactorConversion<From, To>(fromName, toName, factor), u)) == Mul(Get(u), factor)
  {
    Naming.DefaultConversionNameShape(fromName, toName);
    var p := Mul(Get(u), factor);
    DivUnique(p, 1, p as int);
  }

  /** With numerator 1 the product never wraps, and the conversion is the
      truncating division of the raw value by the denominator. */
  lemma FractionTruncates<From, To>(fromName: string, toName: string, d: u32, u: Unit<From, u32>)
    requires d != 0
    ensures Get(Apply(FractionConversion<From, To>(fromName, toName, 1, d), u)) == Div(Get(u), d)
  {
    assert Mul(Get(u), 1) == Get(u);
  }

  /** Scaling up by `n` and back down by `1 / n` returns the input exactly
      when the intermediate product fits in 32 bits: once it wraps, the
      reduced product is below `x * n` and the quotient falls below `x`. */
  lemma ScaleRoundTrip(x: u32, n: u32)
    requires n != 0
    ensures Scale(Scale(x, n, 1), 1, n) == x <==> x as int * n as int < Modulus
  {
    var up := Scale(x, n, 1);
    var p := Mul(x, n);
    DivUnique(p, 1, p as int);
    assert up == p;
    assert Mul(up, 1) == up;
    var down := Scale(up, 1, n);
    if x as int * n as int < Modulus {
      assert up as int == x as int * n as int;
      assert (x as int + 1) * n as int == x as int * n as int + n as int;
      DivUnique(up, n, x as int);
    } else {
      assert down as int * n as int <= up as int < x as int * n as int;
      if down >= x {
        MulMonotone(x as int, down as int, n as int);
        assert false;
      }
    }
  }

  /** A conversion by an integer factor followed by the reciprocal
      conversion back returns the original value exactly when the scaled
      value fits in 32 bits. */
  lemma RoundTrip<From, To>(fromName: string, toName: string, n: u32, u: Unit<From, u32>)
    requires n != 0
    ensures Apply(FractionConversion<To, From>(toName, fromName, 1, n), Apply(FactorConversion<From, To>(fromName, toName, n), u)) == u
            <==> Get(u) as int * n as int < Modulus
  {
    ScaleRoundTrip(Get(u), n);
  }

  /** Scaling down by `1 / n` and back up by `n` never wraps and loses
      exactly the remainder of the division by `n`: the result equals the
      input precisely when the input is a multiple of `n`. */
  lemma ScaleDownUp(x: u32, n: u32)
    requires n != 0
    ensures Scale(Scale(x, 1, n), n, 1) as int == x as int - x as int % n as int
    ensures Scale(Scale(x, 1, n), n, 1) == x <==> x as int % n as int == 0
  {
    var down := Scale(x, 1, n);
    assert Mul(x, 1) == x;
    DivFacts(x as int, n as int);
    DivUnique(x, n, x as int / n as int);
    assert down as int == x as int / n as int;
    assert down as int * n as int <= x as int;
    var p := Mul(down, n);
    assert p as int == down as int * n as int;
    DivUnique(p, 1, p as int);
    assert x as int == n as int * (x as int / n as int) + x as int % n as int;
  }

  /** Converting down by `1 / n` and back up by `n` truncates to the largest
      multiple of `n` not above the original value. */
  lemma TruncatingRoundTrip<From, To>(fromName: string, toName: string, n: u32, u: Unit<From, u32>)
    requires n != 0
    ensures Get(Apply(FactorConversion<To, From>(toName, fromName, n), Apply(FractionConversion<From, To>(fromName, toName, 1, n), u))) as int
            == Get(u) as int - Get(u) as int % n as int
  {
    ScaleDownUp(Get(u), n);
  }

  /** Without wrap-around a conversion keeps the order of values. */
  lemma Monotone<From, To>(c: Conversion<From, To>, u: Unit<From, u32>, w: Unit<From, u32>)
    requires c.d != 0 && Get(u) <= Get(w) && Get(w) as int * c.n as int < Modulus
    ensures Get(Apply(c, u)) <= Get(Apply(c, w))
  {
    MulMonotone(Get(u) as int, Get(w) as int, c.n as int);
    var pu, pw := Mul(Get(u), c.n), Mul(Get(w), c.n);
    DivMonotone(pu, pw, c.d);
  }

  /** The round-trip bound is tight: 4294968 is the least value whose
      product by 1000 exceeds 2^32, and scaling it up wraps to 704, which
      scales back down to 0. */
  lemma OverflowBreaksRoundTrip()
    ensures Scale(4294968, 1000, 1) == 704
    ensures Scale(704, 1, 1000) == 0
    ensures 4294967 * 1000 < Modulus <= 4294968 * 1000
  {
    DivUnique(Mul(4294968, 1000), 1, 704);
    DivUnique(Mul(704, 1), 1000, 0);
  }
}
