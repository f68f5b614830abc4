/** Facts about sequences shared by the option parser and the model walker. */
module Sequences {

  lemma ConcatAssociative<T>(a: seq<T>, b: seq<T>, c: seq<T>)
    ensures (a + b) + c == a + (b + c)
  {
  }
}
