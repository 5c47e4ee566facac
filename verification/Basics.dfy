/** Shared small things. */
module Basics {

  datatype Option<+T> = None | Some(value: T)

  type Byte = b: nat | b < 256

  lemma Assoc<T>(a: seq<T>, b: seq<T>, c: seq<T>)
    ensures (a + b) + c == a + (b + c)
  {
  }
}
