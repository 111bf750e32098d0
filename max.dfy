/** Max: the largest number of a tuple (lodash `max`), computed with a running
    maximum that is threaded through the recursion as a parameter. */
module Max {
  import opened Primitives

  /** The source's `Max<T, R>`: `r` stands for the current maximum, which on the
      first call is the head of `s`, so the head itself is never compared.
      The empty tuple has no result; one element left returns `r`; otherwise, if
      `r` is at least the next element `r` is kept, else the recursion starts over
      from the tail with its own head as the running maximum. */
  function MaxAcc(s: seq<int>, r: int): (m: Option<int>)
    ensures m.Some? <==> |s| > 0
    ensures m.Some? ==> m.value >= r && (m.value == r || m.value in s[1..])
    ensures m.Some? ==> forall k :: 1 <= k < |s| ==> s[k] <= m.value
    decreases |s|
  {
    if s == [] then None
    else if |s| == 1 then Some(r)
    else if Gte(r, Head(Tail(s))) then MaxAcc(Tail(s), r)
    else MaxAcc(Tail(s), Head(Tail(s)))
  }

  /** `Max<T>` with the running maximum defaulted to the head of the tuple. */
  function Max(s: seq<int>): (m: Option<int>)
    ensures m.Some? <==> |s| > 0
    ensures m.Some? ==> m.value in s && forall k :: 0 <= k < |s| ==> s[k] <= m.value
  {
    if s == [] then None else MaxAcc(s, Head(s))
  }

  function IntMax(a: int, b: int): (m: int) { if a >= b then a else b }

  /** Reference definition: the largest element by a right-to-left scan. */
  function SeqMax(s: seq<int>): (m: int)
    requires |s| > 0
    decreases |s|
  {
    if |s| == 1 then s[0] else IntMax(s[0], SeqMax(s[1..]))
  }

  /** The accumulator only matters through the larger of it and the rest:
      for two or more elements the result is max(r, max(s[1..])). */
  lemma {:induction false} MaxAccIsMaxOfRest(s: seq<int>, r: int)
    requires |s| >= 2
    ensures MaxAcc(s, r) == Some(IntMax(r, SeqMax(s[1..])))
    decreases |s|
  {
    if |s| > 2 {
      var rest := s[1..];
      if r >= s[1] {
        MaxAccIsMaxOfRest(rest, r);
      } else {
        MaxAccIsMaxOfRest(rest, s[1]);
      }
      assert rest[1..] == s[2..];
    }
  }

  /** Max agrees with the reference scan on every non-empty tuple. */
  lemma {:induction false} MaxMatchesReference(s: seq<int>)
    requires |s| > 0
    ensures Max(s) == Some(SeqMax(s))
  {
    if |s| >= 2 {
      MaxAccIsMaxOfRest(s, s[0]);
    }
  }

  /** MaxAcc with a strict greater-than in place of greater-or-equal: on a tie it
      re-seeds the running maximum from the next element instead of keeping it. */
  function MaxAccStrict(s: seq<int>, r: int): (m: Option<int>)
    decreases |s|
  {
    if s == [] then None
    else if |s| == 1 then Some(r)
    else if r > Head(Tail(s)) then MaxAccStrict(Tail(s), r)
    else MaxAccStrict(Tail(s), Head(Tail(s)))
  }

  /** Whether a tie keeps the running maximum or replaces it cannot be observed:
      the greater-or-equal test and a strict test give the same result. */
  lemma {:induction false} TiePolicyUnobservable(s: seq<int>, r: int)
    ensures MaxAcc(s, r) == MaxAccStrict(s, r)
    decreases |s|
  {
    if |s| >= 2 {
      TiePolicyUnobservable(s[1..], r);
      TiePolicyUnobservable(s[1..], s[1]);
    }
  }

  /** When the next element is larger, the recursion carries it forward:
      the result is the maximum of the tail. */
  lemma MaxAccTakesLarger(s: seq<int>, r: int)
    requires |s| >= 2 && s[1] > r
    ensures MaxAcc(s, r) == Max(s[1..])
  {
  }

  /** The empty tuple has no maximum; a singleton's maximum is its element. */
  lemma MaxSmallCases(x: int)
    ensures Max([]) == None
    ensures Max([x]) == Some(x)
  {
  }

  /** Max([1, 2, 3]) == 3 and Max([3, 1, 2]) == 3. */
  lemma MaxExamples()
    ensures Max([1, 2, 3]) == Some(3)
    ensures Max([3, 1, 2]) == Some(3)
  {
  }
}
