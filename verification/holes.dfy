/**
  Hole descriptors and the values they produce.

  In the source a hole is either a `PlaceholderValue` built by one of the
  `Placeholder.P` overloads (a closure over a selector from the subject value)
  or any other interpolated object. Here the closure is replaced by a tagged
  descriptor; which overload built it decides which adapter entry point the
  value reaches (the integer, the character or the generic one).
 */
module Holes {
  import opened Decimal

  /** The runtime objects a hole can produce, boxed as C# `object`. A nested
      dictionary is a `Dict`; any other object is known only by identity. */
  datatype Object =
    | BoxedInt(i: int)
    | BoxedChar(c: char)
    | Str(s: string)
    | Null
    | Dict(entries: map<string, Object>)
    | Other(id: nat)

  /** A hole over subject values of type `T`. */
  datatype Hole<!T> =
    | IntHole(selectInt: T -> Int32)       // P(Func<T, int>)
    | CharHole(selectChar: T -> char)      // P(Func<T, char>)
    | GenericHole(select: T -> Object)     // P<K>(Func<T, K>)
    | Constant(value: Object)              // any interpolated object that is not a placeholder

  /** `P<K, J>(selector, transformer)`: a generic hole whose value is the
      transformer applied to the selected value. */
  function PTransform<T, K>(selector: T -> K, transformer: K -> Object): Hole<T> {
    GenericHole(v => transformer(selector(v)))
  }
}
