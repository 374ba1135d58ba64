/** Facts about sequences that proofs of readers and printers name rather than leave to be found. */
module Sequences {

  lemma Cons<T>(x: T, xs: seq<T>)
    ensures ([x] + xs)[0] == x && ([x] + xs)[1..] == xs
  {}

  lemma Uncons<T>(xs: seq<T>)
    requires xs != []
    ensures xs == [xs[0]] + xs[1..]
  {}

  lemma Assoc<T>(a: seq<T>, b: seq<T>, c: seq<T>)
    ensures (a + b) + c == a + (b + c)
  {}
}
