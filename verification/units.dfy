/** The unit wrapper: a one-field struct around a storage value, its
    constructor (with or without an initialisation operation) and the raw
    accessor. */
module Units {

  /** A value of the unit tagged `Tag`, stored as one `S`. The tag is a
      phantom type: `Unit<Volts, u32>` and `Unit<Millivolts, u32>` are
      distinct types although both hold a `u32`, as two structs generated
      from different unit names are distinct C types. */
  datatype Unit<Tag, S> = Unit(value: S)

  /** The identity operation a plain unit applies to its input. */
  function Nop<S>(x: S): S
  {
    x
  }

  /** The constructor of a unit declared with an initialisation operation:
      it stores `op(input)`. The operation may be partial (a signed addition
      that must not overflow), so the input must lie in its domain. */
  function Make<Tag, S>(op: S --> S, input: S): Unit<Tag, S>
    requires op.requires(input)
  {
    Unit(op(input))
  }

  /** The constructor of a plain unit: the same constructor with `Nop`,
      which therefore stores its input unchanged. */
  function MakePlain<Tag, S>(input: S): (u: Unit<Tag, S>)
    ensures u.value == input
  {
    Make(Nop, input)
  }

  /** The raw accessor: the stored field, untransformed, so that the plain
      constructor rebuilds the very value it was read from. */
  function Get<Tag, S>(u: Unit<Tag, S>): (r: S)
    ensures MakePlain(r) == u
  {
    u.value
  }

  /** A unit with an initialisation operation stores the operation's result. */
  lemma GetMake<Tag, S>(op: S --> S, x: S)
    requires op.requires(x)
    ensures Get<Tag, S>(Make(op, x)) == op(x)
  {
  }

  /** A plain unit stores its input unchanged, and every value of the unit
      is the plain constructor applied to its raw value: construction and
      the accessor are inverse bijections. */
  lemma GetMakePlain<Tag, S>(x: S, u: Unit<Tag, S>)
    ensures Get<Tag, S>(MakePlain(x)) == x
    ensures MakePlain(Get(u)) == u
  {
  }
}
