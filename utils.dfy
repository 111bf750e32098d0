/** Tuple helpers: prepend (Unshift) and append (Push). Push is built the way the
    repository builds it, as reverse, then prepend, then reverse back. */
module Utils {
  import opened Primitives

  /** A tuple one longer, with `e` in front of the elements of `t`. */
  function Unshift<T>(t: seq<T>, e: T): (r: seq<T>)
    ensures |r| == |t| + 1
    ensures Head(r) == e && Tail(r) == t
  {
    [e] + t
  }

  /** Appends `e` by prepending it to the reversed tuple and reversing back;
      the construction amounts to concatenation with `[e]` at the end. */
  function Push<T>(t: seq<T>, e: T): (r: seq<T>)
    ensures r == t + [e]
  {
    ReverseOfPrepended(e, Reverse(t));
    ReverseInvolution(t);
    Reverse(Unshift(Reverse(t), e))
  }

  /** Push keeps the original elements as a prefix and ends with the new one. */
  lemma PushKeepsPrefix<T>(t: seq<T>, e: T)
    ensures |Push(t, e)| == |t| + 1
    ensures Push(t, e)[..|t|] == t
    ensures Push(t, e)[|t|] == e
  {
  }

  /** Unshift([2, 3], 1) == [1, 2, 3] and Push([1, 2], 3) == [1, 2, 3]. */
  lemma UtilsExamples()
    ensures Unshift([2, 3], 1) == [1, 2, 3]
    ensures Push([1, 2], 3) == [1, 2, 3]
  {
  }
}
