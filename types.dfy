/**
 * The closed set of scalar kinds a recorded value can have, and the two
 * queries the emitters ask of a kind: whether it is floating point (only
 * those carry a gradient) and which C++ type name declares it.
 */
module ScalarTypes {
  import opened Wrappers

  /** The scalar kinds, in the order of the C++ enumeration. */
  datatype Type = Void | Bool | Int8 | Int32 | UInt32 | Float32 | Float64

  /** Floating-point kinds: the only ones the reverse sweep emits code for. */
  predicate IsFloat(t: Type): (r: bool)
  {
    t == Float32 || t == Float64
  }

  /** Every kind that is neither `Void` nor floating point counts as an integer, `Bool` included. */
  predicate IsInt(t: Type): (r: bool)
    ensures r <==> t in {Bool, Int8, Int32, UInt32}
    ensures r ==> !IsFloat(t)
  {
    t != Void && !IsFloat(t)
  }

  /**
   * The C++ type name of a kind, used to declare generated variables.
   * `None` stands for the process abort the catalog performs on `Int8`,
   * the one kind it has no name for.
   */
  function TypeToStr(t: Type): (r: Option<string>)
    ensures r.None? <==> t == Int8
    ensures r.Some? ==> |r.value| > 0 && '\n' !in r.value && '$' !in r.value
    ensures IsFloat(t) ==> r.Some? && r.value in {"float", "double"}
  {
    match t
    case Void => Some("void")
    case Bool => Some("bool")
    case Float32 => Some("float")
    case Float64 => Some("double")
    case Int32 => Some("int")
    case UInt32 => Some("unsigned int")
    case Int8 => None
  }
}
