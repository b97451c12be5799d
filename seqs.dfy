/** Facts about sequences that both pipelines use when they build their annotation lists. */
module Seqs {

  /** Concatenation regroups freely; stated once so that large contexts need not rediscover it. */
  lemma ConcatAssociative<T>(a: seq<T>, b: seq<T>, c: seq<T>)
    ensures a + b + c == a + (b + c)
  {
  }
}
