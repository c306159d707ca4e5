/** Shared by all modules: optional values and two facts about concatenation. */
module Basics {

  datatype Option<+T> = None | Some(value: T)

  lemma Associates<T>(x: seq<T>, y: seq<T>, z: seq<T>)
    ensures (x + y) + z == x + (y + z)
  {
  }

  lemma TailOfSum<T>(a: seq<T>, b: seq<T>)
    requires a != []
    ensures a + b != [] && (a + b)[0] == a[0] && (a + b)[1..] == a[1..] + b
  {
  }
}
