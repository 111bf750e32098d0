/** Drop: a slice of a tuple with n elements dropped from the beginning (lodash `drop`). */
module Drop {
  import opened Primitives

  /** The dispatch keys are tried in the source's order: an empty tuple gives the
      empty tuple, a zero counter gives the tuple itself, otherwise one element is
      removed and the counter decremented. The result is always a suffix. */
  function Drop<T>(s: seq<T>, n: nat): (r: seq<T>)
    ensures |r| <= |s|
    ensures forall k :: 0 <= k < |r| ==> r[k] == s[|s| - |r| + k]
    decreases |s|
  {
    if s == [] then []
    else if n == 0 then s
    else Drop(Tail(s), Dec(n))
  }

  function Min(a: int, b: int): (m: int) { if a <= b then a else b }

  /** Closed form: dropping n elements is the suffix starting at min(n, |s|). */
  lemma {:induction false} DropIsSuffix<T>(s: seq<T>, n: nat)
    ensures Drop(s, n) == s[Min(n, |s|)..]
    decreases |s|
  {
    if s != [] && n != 0 {
      var t := s[1..];
      assert Drop(s, n) == Drop(t, n - 1);
      DropIsSuffix(t, n - 1);
      var k := Min(n - 1, |t|);
      assert Min(n, |s|) == k + 1;
      assert t[k..] == s[k + 1..];
    }
  }

  /** The length of the result is max(0, |s| - n). */
  lemma DropLength<T>(s: seq<T>, n: nat)
    ensures |Drop(s, n)| == if n >= |s| then 0 else |s| - n
  {
    DropIsSuffix(s, n);
  }

  /** Dropping zero elements returns the tuple unchanged, the empty one included. */
  lemma DropZero<T>(s: seq<T>)
    ensures Drop(s, 0) == s
  {
  }

  /** Dropping from the empty tuple yields the empty tuple for every counter. */
  lemma DropEmpty<T>(n: nat)
    ensures Drop<T>([], n) == []
  {
  }

  /** Dropping at least as many elements as there are yields the empty tuple. */
  lemma DropOver<T>(s: seq<T>, n: nat)
    requires n >= |s|
    ensures Drop(s, n) == []
  {
    DropIsSuffix(s, n);
  }

  /** Dropping m and then n elements is dropping m + n elements. */
  lemma {:induction false} DropDrop<T>(s: seq<T>, m: nat, n: nat)
    ensures Drop(Drop(s, m), n) == Drop(s, m + n)
    decreases |s|
  {
    if s == [] {
    } else if m != 0 {
      DropDrop(s[1..], m - 1, n);
      assert Drop(s, m + n) == Drop(s[1..], m - 1 + n);
    }
  }

  /** Dropping all but one element leaves the final element alone. */
  lemma DropLeavingOne<T>(s: seq<T>)
    requires |s| > 0
    ensures Drop(s, |s| - 1) == [s[|s| - 1]]
  {
    var n := |s| - 1;
    DropIsSuffix(s, n);
    assert Drop(s, n) == s[n..];
    assert s[n..] == [s[n]];
  }

  /** Drop([1, 2, 3], 1) == [2, 3]. */
  lemma DropExample()
    ensures Drop([1, 2, 3], 1) == [2, 3]
  {
    DropIsSuffix([1, 2, 3], 1);
  }
}
