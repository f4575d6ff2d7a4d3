/** Bytes, and regrouping of sequences. */
module Sequences {
  type Byte = b: int | 0 <= b < 256

  lemma Join<T>(a: seq<T>, b: seq<T>, c: seq<T>)
    ensures a + (b + c) == (a + b) + c
  {
  }
}
