# cudl: nominal units and rational conversions, modelled in Dafny

cudl is a single C header, `lib/cudl.h`, whose macros generate unit types.
Each declared unit is a one-field struct around a numeric storage type. Its
constructor carries the unit's name and optionally applies an
initialisation operation to its input. `CUDL_GET` reads the raw field back.
Further macros generate directed conversions between two units. Each
conversion multiplies the raw value by a numerator and then divides it by a
denominator. Every generated name is built by token pasting.

The model has five modules:

- `Storage` (`storage.dfy`): the `uint32_t` storage as a newtype `u32`. `Mul`
  is multiplication modulo 2^32 and `Div` is truncating division.
- `Units` (`units.dfy`): `Unit<Tag, S>`, a one-field datatype with a phantom
  tag, so that values of different units cannot be mixed. It also holds the
  constructor `Make`, the plain constructor `MakePlain` (with the identity
  operation `Nop`) and the accessor `Get`.
- `Naming` (`naming.dfy`): the generated identifiers as string functions.
  These are the type name `name_t`, the struct tag `name_s`, the constructor
  name `name`, the explicit conversion name `explicative + to` and the
  shorthand conversion name `"from" + from + "_to" + to`.
- `Conversions` (`conversions.dfy`): the conversion descriptor, its two
  shorthands, the raw arithmetic `Scale` and the generated function `Apply`.
  The module also holds the round-trip, truncation and order lemmas.
- `Voltage` (`voltage.dfy`): the units the tests and examples declare. These
  are volts and millivolts (named `_v` and `_mv`) with the two conversions
  between them, a signed unit whose initialisation operation adds 2, and a
  plain signed unit. Each unit has exactly one constructor function there.

The header has four properties that shape the model:

- The header adds no prefix to generated names.
- The shorthand name is `"from" + from + "_to" + to`, with no separator after
  `from`. `_to` is a literal token there, because the macro's parameter is
  `__to`. Units `v` and `mv` therefore get `fromv_tomv`, and the units of
  `test/cudl_test.cpp` are named `_v` and `_mv` to get `from_v_to_mv`.
- Distinct unit names can still produce colliding symbols. The type name of
  unit `a` is the constructor name of unit `a_t`. The shorthand conversions
  from `x_to` to `y` and from `x` to `_toy` are both named `fromx_to_toy`.
- The arithmetic is done in the source value's type, promoted with the
  numerator's type, and only the assignment converts the result to the
  destination type. With `uint32_t` on both sides, the only case modelled,
  this makes no difference.

## Model

| member | source | states |
|---|---|---|
| `Storage.Mul` | lib/cudl.h:28 | the product on `uint32_t` is the exact product when that fits, and otherwise congruent to it modulo 2^32 |
| `Storage.Div` | lib/cudl.h:28 | the quotient on `uint32_t` truncates: `r * b <= a < (r + 1) * b`, and it never exceeds the dividend |
| `Units.Nop` | lib/cudl.h:10 | no contract: the identity operation; `Units.GetMakePlain` states what a unit built with it stores |
| `Units.Make` | lib/cudl.h:13-19 | no contract: the constructor storing `op(input)` in a fresh one-field value; `Units.GetMake` states what it stores |
| `Units.MakePlain` | lib/cudl.h:21 | the plain constructor stores its input unchanged |
| `Units.Get` | lib/cudl.h:23 | the raw accessor loses nothing: the plain constructor applied to the raw value rebuilds the unit value |
| `Units.GetMake` | lib/cudl.h:13-23 | a unit declared with an init operation stores `op(x)`, not `x` |
| `Units.GetMakePlain` | lib/cudl.h:10-23 | a plain unit stores its input unchanged (`Get(MakePlain(x)) == x`), and every unit value is the plain constructor of its raw value |
| `Naming.TypeName` | lib/cudl.h:9 | the type name is the unit name followed by `_t` |
| `Naming.StructTag` | lib/cudl.h:14 | the struct tag is the unit name followed by `_s` |
| `Naming.ConstructorName` | lib/cudl.h:15 | no contract: the constructor carries the unit name itself; `Naming.TypeNameMeetsConstructorName` relates it to type names |
| `Naming.ExplicitConversionName` | lib/cudl.h:26 | the conversion name is the fragment followed by the destination unit name |
| `Naming.DefaultExplicative` | lib/cudl.h:33 | no contract: the fragment `"from" + from + "_to"`; `Naming.DefaultConversionNameShape` states the name it yields |
| `Naming.DefaultConversionName` | lib/cudl.h:33 | no contract: the explicit rule applied to the default fragment; `Naming.DefaultConversionNameShape` and `Naming.DefaultConversionNameInjective` carry its behaviour |
| `Naming.TypeNameInjective` | lib/cudl.h:9-14 | distinct unit names give distinct type names (`name_t`) and distinct struct tags (`name_s`), in both directions |
| `Naming.TypeNameMeetsConstructorName` | lib/cudl.h:9-15 | a type name is never its own unit's constructor name, and it equals another unit's constructor name exactly when that unit is named `name_t` |
| `Naming.ExplicitConversionNameInjective` | lib/cudl.h:26 | into one destination, explicit conversion names differ exactly when the fragments differ |
| `Naming.ExplicitConversionNamesMayCollide` | lib/cudl.h:26 | across destinations, explicit names can collide (`a` into `bc` and `ab` into `c` are both `abc`) |
| `Naming.DefaultConversionNameShape` | lib/cudl.h:26-33 | the shorthand conversion name is `"from" + from + "_to" + to`, seven characters longer than the two unit names |
| `Naming.DefaultConversionNameInjective` | lib/cudl.h:26-33 | with a fixed source, shorthand names differ exactly when the destinations differ; with a fixed destination, exactly when the sources differ |
| `Naming.DefaultConversionNamesMayCollide` | lib/cudl.h:33 | when both unit names vary, shorthand names can collide (`fromx_to_toy` twice) |
| `Conversions.FractionConversion` | lib/cudl.h:32-33 | the fraction shorthand's function is named `"from" + from + "_to" + to` and keeps the numerator and denominator it was given |
| `Conversions.FactorConversion` | lib/cudl.h:35 | no contract: the fraction shorthand over 1; `Conversions.Shorthands` states its name and its arithmetic |
| `Conversions.Name` | lib/cudl.h:26 | no contract: the explicit naming rule applied to a declaration; `Conversions.FractionConversion` and `Conversions.Shorthands` state the names it gives |
| `Conversions.Scale` | lib/cudl.h:28 | the raw result is the truncated quotient by `d` of the product reduced modulo 2^32; with no wrap-around it is the truncated quotient of the exact product, so the multiplication happens first |
| `Conversions.Apply` | lib/cudl.h:26-30 | no contract: builds a fresh destination-unit value from `Scale` of the source's raw value; `Conversions.Shorthands`, `Conversions.FractionTruncates`, `Conversions.RoundTrip`, `Conversions.TruncatingRoundTrip` and `Conversions.Monotone` carry its behaviour |
| `Conversions.ScaleProductAsWritten` | lib/cudl.h:28 | no contract: the expansion `((x * n) / dl) * dr` of a denominator written `dl * dr`; `Conversions.ProductDenominatorAsWritten` exhibits it |
| `Conversions.ScaleProduct` | lib/cudl.h:28 | no contract: the same declaration read with `dl * dr` as one denominator; `Conversions.ProductDenominatorRoundTrip` states its property |
| `Conversions.Shorthands` | lib/cudl.h:32-35 | both shorthands are named `"from" + from + "_to" + to` for every numerator and denominator; the factor form is the fraction form over 1, and it yields `x * factor` modulo 2^32 |
| `Conversions.FractionTruncates` | lib/cudl.h:28-33 | a `1 / d` conversion maps `x` to the truncated quotient `x / d` |
| `Conversions.ScaleRoundTrip` | lib/cudl.h:28 | scaling by `n / 1` and then by `1 / n` returns `x` if and only if `x * n < 2^32` |
| `Conversions.RoundTrip` | lib/cudl.h:25-35 | a factor conversion followed by the reciprocal fraction conversion back returns the original unit value if and only if `x * n < 2^32` |
| `Conversions.ScaleDownUp` | lib/cudl.h:28 | scaling by `1 / n` and then by `n / 1` gives `x - x % n`, which equals `x` exactly when `n` divides `x` |
| `Conversions.TruncatingRoundTrip` | lib/cudl.h:25-35 | a fraction conversion by `1 / n` followed by the factor conversion back truncates to the largest multiple of `n` not above the original |
| `Conversions.Monotone` | lib/cudl.h:25-30 | without wrap-around, a conversion keeps the order of values |
| `Conversions.OverflowBreaksRoundTrip` | lib/cudl.h:28 | the round-trip bound is tight: 4294968 volts scale to 704 millivolts, which scale back to 0 |
| `Conversions.ProductDenominatorAsWritten` | lib/cudl.h:28 | as written, a denominator passed as `10 * 100` turns 5000 into 50000; read as one denominator it gives 5 |
| `Conversions.ProductDenominatorRoundTrip` | lib/cudl.h:28 | read as one denominator, a product `dl * dr` undoes the factor `dl * dr` whenever the scaled value fits in 32 bits |
| `Voltage.TestVectors` | test/cudl_test.cpp:5-29 | units `_v`/`_mv` get types `_v_t`/`_mv_t` and conversions `from_v_to_mv`/`from_mv_to_v`; 10 V is 10000 mV and 5000 mV is 5 V |
| `Voltage.NamesWithoutUnderscore` | lib/cudl.h:32-35 | for units `v` and `mv` the shorthand conversion is named `fromv_tomv` |
| `Voltage.VoltsRoundTrip` | examples/add_conversion_example.c:4-13 | volts to millivolts and back is the identity exactly below 4294968 V |
| `Voltage.MillivoltsRoundTrip` | test/cudl_test.cpp:8-9 | millivolts to volts and back truncates to whole volts |
| `Voltage.AddTwoExample` | examples/add_unit_with_init_op_example.c:3-8 | the unit whose init operation adds 2 stores 7 when constructed from 5 |
| `Voltage.PlainUnitExample` | examples/add_unit_example.c:3-7 | the plain unit on `int` storage stores 5 when constructed from 5 |

## Findings

| source | as written | input that shows it | evidently intended | confidence | as-written member | corrected member |
|---|---|---|---|---|---|---|
| lib/cudl.h:28 | `(from_value.value * _n) / _d` pastes the denominator argument without parentheses, so a denominator written `dl * dr` expands to `((x * n) / dl) * dr` | `CUDL_ADD_CONVERSION_FRACTION_FACTOR(_mv, _v, 1, 10 * 100)` applied to 5000 gives 50000 | divide by the whole argument: 5 | medium, not executed | `Conversions.ProductDenominatorAsWritten` | `Conversions.ProductDenominatorRoundTrip` |

The rest of the model takes the denominator of a conversion as one
evaluated value. That is the corrected reading. The numerator is pasted
without parentheses too: a numerator written `a + b` would expand to
`x * a + b`. No declaration in the tests or examples passes such an
argument.

## Left out

- Floating-point storage, such as the `rad`/`deg` units and their `M_PI` conversions in the tests, is not modelled. Dafny has no IEEE arithmetic here.
- The operator macros (`CUDL_ADD_NO_TRANSFORM_OP`, `CUDL_ADD_NO_UNIT_OP`, `CUDL_ADD_RELATIONAL_OP`, `CUDL_ADD_BITWISE_NOT_OP`, `CUDL_ADD_COMMON_OPERATORS`, `CUDL_ADD_INTEGER_OPERATORS`) and `CUDL_PREFIX` are left out. The header modelled here does not define them.
- `__CUDLE_FACTOR` is left out. It is malformed (an unbalanced parenthesis) and never used.
- Include guards, `extern "C"` and the claim that a unit has the same size and alignment as its storage are left out. Memory layout is not expressible in Dafny.
- Conversions are modelled only between `uint32_t` units. A destination with a narrower or wider storage type, where the assignment would convert the result, is not modelled.
- The numerator and denominator are taken as values already converted to `uint32_t`. Literals of a wider type, which would widen the multiplication, are not modelled.
- A zero denominator is excluded by a precondition on `Scale` and `Apply`. The runtime division fault it causes in C is not modelled.
- Signed overflow in an initialisation operation is undefined behaviour in C. The model excludes it by giving the operation a precondition (`AddTwo`). It does not model what a compiler would do.
- A conversion's unit names are strings stored beside its type tags, not derived from them, so nothing ties a declaration's name to the types it converts between; in C one token gives both. Likewise a unit's constructor is not tied to its tag: `Voltage` declares one constructor per unit by convention.
- `Conversions.Apply`: no contract of its own. Its arithmetic is stated on `Scale`, and its behaviour on unit values is stated by the conversion lemmas. It returns a fresh value and leaves its argument unchanged, which holds for every Dafny datatype value.
