/** The units the tests and examples declare: volts and millivolts on
    `uint32_t` with the conversions between them, and a signed unit with an
    initialisation operation that adds 2. */
module Voltage {
  import opened Storage
  import opened Units
  import opened Conversions
  import Naming

  /** Tag of the volt unit. */
  datatype Volts = Volts

  /** Tag of the millivolt unit. */
  datatype Millivolts = Millivolts

  /** The unit names: a leading underscore makes the shorthand conversion
      names come out as `from_v_to_mv` and `from_mv_to_v`. */
  const VoltName: string := "_v"
  const MillivoltName: string := "_mv"

  /** The constructors of the two units, both plain. */
  function VoltsOf(x: u32): Unit<Volts, u32>
  {
    MakePlain(x)
  }

  function MillivoltsOf(x: u32): Unit<Millivolts, u32>
  {
    MakePlain(x)
  }

  /** Volts to millivolts, factor 1000. */
  const ToMillivolts: Conversion<Volts, Millivolts> := FactorConversion(VoltName, MillivoltName, 1000)

  /** Millivolts to volts, fraction 1 / 1000. */
  const ToVolts: Conversion<Millivolts, Volts> := FractionConversion(MillivoltName, VoltName, 1, 1000)

  /** The generated names and the values of the test cases. */
  lemma TestVectors()
    ensures Naming.TypeName(VoltName) == "_v_t" && Naming.TypeName(MillivoltName) == "_mv_t"
    ensures Name(ToMillivolts) == "from_v_to_mv" && Name(ToVolts) == "from_mv_to_v"
    ensures Get(VoltsOf(10)) == 10
    ensures Get(Apply(ToMillivolts, VoltsOf(10))) == 10000
    ensures Get(Apply(ToVolts, MillivoltsOf(5000))) == 5
  {
    Naming.DefaultConversionNameShape(VoltName, MillivoltName);
    Naming.DefaultConversionNameShape(MillivoltName, VoltName);
    DivUnique(Mul(10, 1000), 1, 10000);
    DivUnique(Mul(5000, 1), 1000, 5);
  }

  /** Without the leading underscore the shorthand names lose the separator
      after `from` and before the destination. */
  lemma NamesWithoutUnderscore()
    ensures Name(FactorConversion<Volts, Millivolts>("v", "mv", 1000)) == "fromv_tomv"
  {
  }

  /** Volts survive the trip through millivolts exactly while the millivolt
      value fits in 32 bits, that is below 4294968 volts. */
  lemma VoltsRoundTrip(u: Unit<Volts, u32>)
    ensures Apply(ToVolts, Apply(ToMillivolts, u)) == u <==> Get(u) < 4294968
  {
    RoundTrip<Volts, Millivolts>(VoltName, MillivoltName, 1000, u);
  }

  /** Millivolts through volts come back truncated to whole volts: 5000
      stays 5000, 5999 becomes 5000. */
  lemma MillivoltsRoundTrip(u: Unit<Millivolts, u32>)
    ensures Get(Apply(ToMillivolts, Apply(ToVolts, u))) as int == Get(u) as int - Get(u) as int % 1000
  {
    TruncatingRoundTrip<Millivolts, Volts>(MillivoltName, VoltName, 1000, u);
  }

  /** A signed 32-bit `int`, the storage of the unit with an initialisation
      operation. */
  newtype i32 = x: int | -0x8000_0000 <= x < 0x8000_0000

  /** Tag of the unit declared with the initialisation operation. */
  datatype MyUnit = MyUnit

  /** The initialisation operation `x + 2`; signed overflow is undefined in
      C, so the operation is defined only where the sum fits. */
  function AddTwo(x: i32): i32
    requires x <= 0x7FFF_FFFD
  {
    x + 2
  }

  /** The one constructor of that unit: it applies `AddTwo`. */
  function MyUnitOf(x: i32): Unit<MyUnit, i32>
    requires x <= 0x7FFF_FFFD
  {
    Make(AddTwo, x)
  }

  /** Constructing the unit from 5 stores 7. */
  lemma AddTwoExample()
    ensures Get(MyUnitOf(5)) == 7
  {
  }

  /** Tag of the plain unit of the same name declared on signed storage. */
  datatype PlainUnit = PlainUnit

  /** The one constructor of the plain unit. */
  function PlainUnitOf(x: i32): Unit<PlainUnit, i32>
  {
    MakePlain(x)
  }

  /** Constructing the plain unit from 5 stores 5. */
  lemma PlainUnitExample()
    ensures Get(PlainUnitOf(5)) == 5
  {
  }
}
