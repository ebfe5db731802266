/** Facts about sequences that the solver needs to be told. */
module Sequences {

  lemma Regroup<T>(x: seq<T>, y: seq<T>, z: seq<T>)
    ensures x + (y + z) == (x + y) + z
  {}

  lemma Cons<T>(xs: seq<T>)
    requires xs != []
    ensures [xs[0]] + xs[1..] == xs
  {}

  lemma Nothing<T>(k: seq<T>)
    ensures [] + k == k && k + [] == k
  {}
}
