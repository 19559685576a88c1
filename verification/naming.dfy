/** The identifiers the header generates by token pasting, as strings. The
    header adds no prefix: the names are built from the caller's unit names
    and conversion fragments alone. */
module Naming {

  /** The typedef name of a unit, `_name##_t`. */
  function TypeName(name: string): (r: string)
    ensures |r| == |name| + 2 && r[..|name|] == name && r[|name|..] == "_t"
  {
    name + "_t"
  }

  /** The struct tag of a unit, `_name##_s`. */
  function StructTag(name: string): (r: string)
    ensures |r| == |name| + 2 && r[..|name|] == name && r[|name|..] == "_s"
  {
    name + "_s"
  }

  /** The constructor of a unit carries the unit's own name. */
  function ConstructorName(name: string): string
  {
    name
  }

  /** The name of an explicitly named conversion, `_explicative##_to`. */
  function ExplicitConversionName(explicative: string, to: string): (r: string)
    ensures |r| == |explicative| + |to|
    ensures r[..|explicative|] == explicative && r[|explicative|..] == to
  {
    explicative + to
  }

  /** The fragment the shorthand conversion macros pass as explicative,
      `from##_from##_to`: the literal `from`, the source unit's name and the
      literal token `_to` (not a macro parameter). */
  function DefaultExplicative(from: string): string
  {
    "from" + from + "_to"
  }

  /** The name of a conversion declared with a shorthand macro. */
  function DefaultConversionName(from: string, to: string): string
  {
    ExplicitConversionName(DefaultExplicative(from), to)
  }

  /** Appending a fixed suffix is injective. */
  lemma SuffixCancels(a: string, b: string, suffix: string)
    ensures a + suffix == b + suffix <==> a == b
  {
    if a + suffix == b + suffix {
      assert |a| == |b|;
      assert a == (a + suffix)[..|a|];
      assert b == (b + suffix)[..|b|];
    }
  }

  /** Prepending a fixed prefix is injective. */
  lemma PrefixCancels(prefix: string, a: string, b: string)
    ensures prefix + a == prefix + b <==> a == b
  {
    if prefix + a == prefix + b {
      assert a == (prefix + a)[|prefix|..];
      assert b == (prefix + b)[|prefix|..];
    }
  }

  /** Distinct unit names give distinct type names and distinct struct tags. */
  lemma TypeNameInjective(a: string, b: string)
    ensures TypeName(a) == TypeName(b) <==> a == b
    ensures StructTag(a) == StructTag(b) <==> a == b
  {
    SuffixCancels(a, b, "_t");
    SuffixCancels(a, b, "_s");
  }

  /** A unit's type name is never its own constructor's name, but it is the
      constructor name of the unit whose name has `_t` appended, and of no
      other: declaring units `a` and `a_t` in one scope collides, the only
      way a type name and a constructor name can. */
  lemma TypeNameMeetsConstructorName(a: string, b: string)
    ensures TypeName(a) != ConstructorName(a)
    ensures TypeName(a) == ConstructorName(b) <==> b == a + "_t"
  {
    assert |TypeName(a)| == |a| + 2;
  }

  /** Between conversions into the same destination, distinct fragments give
      distinct names: this is what lets several conversions between one pair
      of units coexist. */
  lemma ExplicitConversionNameInjective(e1: string, e2: string, to: string)
    ensures ExplicitConversionName(e1, to) == ExplicitConversionName(e2, to) <==> e1 == e2
  {
    SuffixCancels(e1, e2, to);
  }

  /** Across destinations the explicit rule can collide: fragment `a` into
      unit `bc` and fragment `ab` into unit `c` are both named `abc`. */
  lemma ExplicitConversionNamesMayCollide()
    ensures ExplicitConversionName("a", "bc") == ExplicitConversionName("ab", "c") == "abc"
  {
  }

  /** The shorthand name is the explicit-name rule applied to the default
      fragment: `"from" + from + "_to" + to`. */
  lemma DefaultConversionNameShape(from: string, to: string)
    ensures DefaultConversionName(from, to) == "from" + from + "_to" + to
    ensures |DefaultConversionName(from, to)| == |from| + |to| + 7
  {
    assert DefaultExplicative(from) + to == "from" + from + "_to" + to;
  }

  /** Between conversions that share their source unit the default names
      differ exactly when the destination units differ, and between those
      that share their destination exactly when the sources differ. */
  lemma {:induction false} DefaultConversionNameInjective(f: string, g: string, t: string, u: string)
    ensures DefaultConversionName(f, t) == DefaultConversionName(f, u) <==> t == u
    ensures DefaultConversionName(f, t) == DefaultConversionName(g, t) <==> f == g
  {
    PrefixCancels(DefaultExplicative(f), t, u);
    SuffixCancels(DefaultExplicative(f), DefaultExplicative(g), t);
    SuffixCancels("from" + f, "from" + g, "_to");
    PrefixCancels("from", f, g);
  }

  /** When both unit names vary the default names can collide: the
      conversions from `x_to` to `y` and from `x` to `_toy` are both named
      `fromx_to_toy`. */
  lemma DefaultConversionNamesMayCollide()
    ensures DefaultConversionName("x_to", "y") == DefaultConversionName("x", "_toy") == "fromx_to_toy"
  {
  }
}
