/** What several of the models share. */
module Basics {

  datatype Option<T> = None | Some(value: T)

  type Byte = x: int | 0 <= x < 256

  lemma {:induction false} AppendAssociates<T>(a: seq<T>, b: seq<T>, c: seq<T>)
    ensures (a + b) + c == a + (b + c)
  {
  }
}
