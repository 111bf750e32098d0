/** Last: the last element of a tuple, or undefined for the empty one (lodash `last`). */
module Last {
  import opened Primitives
  import Utils

  /** Key 0 (empty) gives no element, key 1 (one element) gives the head, key 2
      recurses on the tail. */
  function Last<T>(s: seq<T>): (r: Option<T>)
    ensures r.Some? <==> |s| > 0
    ensures r.Some? ==> r.value == s[|s| - 1]
    decreases |s|
  {
    if s == [] then None
    else if |s| == 1 then Some(Head(s))
    else Last(Tail(s))
  }

  /** The empty tuple has no last element. */
  lemma LastEmpty<T>()
    ensures Last<T>([]) == None
  {
  }

  /** A one-element tuple's last element is that element. */
  lemma LastSingleton<T>(x: T)
    ensures Last([x]) == Some(x)
  {
  }

  /** For two or more elements, the first one can be discarded. */
  lemma LastOfTail<T>(s: seq<T>)
    requires |s| >= 2
    ensures Last(s) == Last(s[1..])
  {
  }

  /** Last([1, 2, 3]) == 3. */
  lemma LastExample()
    ensures Last([1, 2, 3]) == Some(3)
  {
  }

  /** The element appended by Push is the last element of the result. */
  lemma LastOfPush<T>(t: seq<T>, e: T)
    ensures Last(Utils.Push(t, e)) == Some(e)
  {
    Utils.PushKeepsPrefix(t, e);
  }
}
