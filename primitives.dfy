/** Sequence and counter primitives that the type-level operations are built from:
    head/tail decomposition, decrement, greater-or-equal and reversal.
    In the repository they come from the package root; here each is given the
    plain meaning the operations rely on. */
module Primitives {

  /** The "no value" outcome: TypeScript's `undefined` for Last and `never` for Max. */
  datatype Option<+T> = None | Some(value: T)

  /** The first element of a non-empty tuple. */
  function Head<T>(s: seq<T>): (h: T)
    requires |s| > 0
    ensures h in s
  {
    s[0]
  }

  /** The tuple without its first element; the empty tuple stays empty. */
  function Tail<T>(s: seq<T>): (t: seq<T>)
    ensures |s| > 0 ==> |t| == |s| - 1 && forall k :: 0 <= k < |t| ==> t[k] == s[k + 1]
    ensures |s| == 0 ==> t == []
  {
    if s == [] then [] else s[1..]
  }

  /** A non-empty tuple is its head followed by its tail. */
  lemma HeadTail<T>(s: seq<T>)
    requires |s| > 0
    ensures [Head(s)] + Tail(s) == s
  {
  }

  /** Decrement of a counter that has not yet reached zero. */
  function Dec(n: nat): (m: nat)
    requires n > 0
    ensures m == n - 1
  {
    n - 1
  }

  /** Greater-or-equal comparison of two numbers; unlike a strict comparison, two
      equal numbers compare true. */
  function Gte(a: int, b: int): (r: bool)
    ensures r <==> a >= b
  {
    a >= b
  }

  /** The tuple in the opposite order. */
  function Reverse<T>(s: seq<T>): (r: seq<T>)
    ensures |r| == |s|
    ensures forall k :: 0 <= k < |s| ==> r[k] == s[|s| - 1 - k]
  {
    if s == [] then [] else Reverse(s[1..]) + [s[0]]
  }

  /** Reversal is its own inverse. */
  lemma ReverseInvolution<T>(s: seq<T>)
    ensures Reverse(Reverse(s)) == s
  {
    var rr := Reverse(Reverse(s));
    forall k | 0 <= k < |s|
      ensures rr[k] == s[k]
    {
      assert rr[k] == Reverse(s)[|s| - 1 - k];
    }
  }

  /** Reversing a tuple with an element in front puts that element at the back. */
  lemma ReverseOfPrepended<T>(e: T, s: seq<T>)
    ensures Reverse([e] + s) == Reverse(s) + [e]
  {
    assert ([e] + s)[1..] == s;
  }
}
