/** Bounds on reals, as Python's min and max. */
module Reals {
  function Min(x: real, y: real): real { if x < y then x else y }

  function Max(x: real, y: real): real { if x < y then y else x }
}
