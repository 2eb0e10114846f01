/** Facts about sequences that the solver is better told. */
module Sequences {

  lemma InARow<T>(a: seq<T>, b: seq<T>, c: seq<T>)
    ensures (a + b) + c == a + (b + c)
  {
  }
}
