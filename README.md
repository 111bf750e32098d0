# meta-typing sequence operations in Dafny

This project models the type-level tuple operations of the meta-typing repository,
which re-creates some lodash array functions inside TypeScript's type system:

- `Drop<A, N>` drops N leading elements of a tuple;
- `Last<A>` gives the last element of a tuple, or `undefined` for the empty tuple;
- `Max<T, R>` gives the largest number of a tuple, threading the running maximum R
  through the recursion, and `never` for the empty tuple;
- `Unshift<Tuple, Element>` prepends an element and `Push<Tuple, Element>` appends one,
  built as reverse, then unshift, then reverse back.

Each TypeScript type is a function here; `Drop`, `Last` and `Max` are recursive,
`Unshift` and `Push` are not. For the recursive ones the repository selects a branch by
indexing an object literal with a nested conditional type (`{ empty: …; finish: …;
next: … }[A extends [] ? 'empty' : …]`). That device only keeps the TypeScript checker
from rejecting the recursion. Here it is an `if` chain that tests the keys in the same
order. TypeScript's `undefined` and `never` results are the `None` case of `Option`.

The primitives `Dec`, `Gte`, `Head`, `Tail` and `Reverse` come from the package root,
which is not part of this model. Module `Primitives` gives each one its plain meaning:
`Dec` is `n - 1` and may only be applied to a positive counter, `Gte` is `>=` on
integers, `Head` is the first element of a non-empty tuple, `Tail` drops the first
element (the empty tuple stays empty), and `Reverse` is recursive reversal.

Files: `primitives.dfy` (module `Primitives`), `utils.dfy` (`Utils`), `drop.dfy`
(`Drop`), `last.dfy` (`Last`), `max.dfy` (`Max`).

## Model

| member | source | states |
|---|---|---|
| `Primitives.Head` | src/last/index.d.ts:26 | the head of a non-empty tuple is one of its elements; `Primitives.HeadTail` fixes it as the first one |
| `Primitives.Tail` | src/drop/index.d.ts:36 | the tail of a non-empty tuple is one element shorter and holds the elements after the first, in order; the tail of the empty tuple is empty |
| `Primitives.HeadTail` | src/last/index.d.ts:26-29 | a non-empty tuple is its head followed by its tail, the decomposition every operation recurses on |
| `Primitives.Gte` | src/max/index.d.ts:42 | holds exactly when the first number is at least the second, so two equal numbers compare true |
| `Primitives.Dec` | src/drop/index.d.ts:36 | decrement applies only to a positive counter and yields exactly one less |
| `Primitives.Reverse` | src/utils/index.d.ts:6-8 | reversal keeps the length and puts element `k` at position `|s| - 1 - k` |
| `Primitives.ReverseInvolution` | src/utils/index.d.ts:3-8 | reversing twice gives back the original tuple |
| `Primitives.ReverseOfPrepended` | src/utils/index.d.ts:6-8 | reversing `[e] + s` gives `Reverse(s)` followed by `e` |
| `Utils.Unshift` | src/utils/index.d.ts:12-17 | the result is one longer, its head is the new element and its tail is the original tuple |
| `Utils.Push` | src/utils/index.d.ts:3-8 | the reverse-unshift-reverse construction equals `t + [e]` |
| `Utils.PushKeepsPrefix` | src/utils/index.d.ts:3-8 | Push is one longer, keeps `t` as its prefix and ends with `e` |
| `Utils.UtilsExamples` | src/utils/index.d.ts:3-17 | `Unshift([2,3], 1) == [1,2,3]` and `Push([1,2], 3) == [1,2,3]` |
| `Drop.Drop` | src/drop/index.d.ts:23-43 | the result is never longer than the input and is a suffix of it; the recursion decrements only a positive counter on a non-empty tuple and shortens the tuple by one |
| `Drop.DropIsSuffix` | src/drop/index.d.ts:28-43 | `Drop(s, n)` equals `s[min(n, |s|)..]` |
| `Drop.DropLength` | src/drop/index.d.ts:3-6 | the result has `max(0, |s| - n)` elements |
| `Drop.DropZero` | src/drop/index.d.ts:29-34 | dropping zero elements returns the tuple unchanged, the empty one included |
| `Drop.DropEmpty` | src/drop/index.d.ts:29-31 | dropping from the empty tuple yields the empty tuple for every counter |
| `Drop.DropOver` | src/drop/index.d.ts:29-36 | dropping at least `|s|` elements yields the empty tuple, not a failure |
| `Drop.DropDrop` | src/drop/index.d.ts:35-43 | dropping m and then n elements is dropping m + n elements |
| `Drop.DropLeavingOne` | src/drop/index.d.ts:28-43 | dropping all but one element leaves the final element alone |
| `Drop.DropExample` | src/drop/index.d.ts:37-42 | `Drop([1,2,3], 1) == [2,3]` |
| `Last.Last` | src/last/index.d.ts:18-30 | there is a result exactly when the tuple is non-empty, and it is the element at index `|s| - 1` |
| `Last.LastEmpty` | src/last/index.d.ts:22-23 | the empty tuple has no last element |
| `Last.LastSingleton` | src/last/index.d.ts:24-26 | a one-element tuple's last element is that element |
| `Last.LastOfTail` | src/last/index.d.ts:27-29 | for two or more elements, Last of the tuple is Last of its tail |
| `Last.LastExample` | src/last/index.d.ts:3-5 | `Last([1,2,3]) == 3` |
| `Last.LastOfPush` | src/utils/index.d.ts:3-8 | the element Push appends is the last element of the result |
| `Max.MaxAcc` | src/max/index.d.ts:22-44 | there is a result exactly when the tuple is non-empty; it is at least the running maximum, is either the running maximum or an element after the head, and no element after the head exceeds it |
| `Max.Max` | src/max/index.d.ts:22-27 | there is a result exactly when the tuple is non-empty; it is an element of the tuple and every element is at most it |
| `Max.MaxAccIsMaxOfRest` | src/max/index.d.ts:35-44 | for two or more elements the result is the larger of the running maximum and the maximum of the elements after the head |
| `Max.MaxMatchesReference` | src/max/index.d.ts:22-44 | Max agrees with an independent right-to-left maximum on every non-empty tuple, so no update of the running maximum is lost |
| `Max.TiePolicyUnobservable` | src/max/index.d.ts:35-44 | the greater-or-equal test gives the same result as a strict test that re-seeds on a tie, so which of two equal maxima is kept cannot be observed |
| `Max.MaxAccTakesLarger` | src/max/index.d.ts:37-44 | when the next element is larger, the recursion re-seeds the running maximum with it, giving Max of the tail |
| `Max.MaxSmallCases` | src/max/index.d.ts:29-33 | the empty tuple has no maximum; a one-element tuple's maximum is its element |
| `Max.MaxExamples` | src/max/index.d.ts:3-5 | `Max([1,2,3]) == 3` and `Max([3,1,2]) == 3` |

## Left out

- The object-indexed-by-conditional dispatch: it only avoids the TypeScript checker's
  circularity errors; the `if` chains test the same conditions in the same order.
- `ToTuple`'s fallback to `Array<any>` (src/utils/index.d.ts:10): a type coercion with no
  value-level meaning; every `seq` is already a tuple.
- Non-literal arguments (a plain `number` for N, an unbounded `number[]`): their
  TypeScript resolution is not well defined; the model takes concrete sequences, `nat`
  counters and `int` elements.
- JavaScript numbers as floating point: the elements of `Max` are integers here.
- Primitives.Dec: the repository's `Dec` decrements a bounded natural; the model
  decrements any positive `nat`.
- Primitives.Gte: the repository's `Gte` compares bounded naturals; the model compares
  any two integers.
- The bodies of `Dec`, `Gte`, `Head`, `Tail` and `Reverse` are not part of this model;
  each is given its ordinary meaning in module `Primitives`.
- The TypeScript checker's recursion-depth limit: a resource bound of the host, not
  behaviour of the operations.
- Max with an empty tuple: the TypeScript default `R = Head<T>` has no value for the
  empty tuple; `Max.Max` answers `None` before a running maximum is needed.
- Utils.Push: the defaulted type parameters `R` and `T` (src/utils/index.d.ts:6-7) are
  treated as local bindings; a caller-supplied `R` or `T` (`Push<[1, 2], 3, [9]>` gives
  `[9, 3]`) is not modelled.
- Last.Last: TypeScript's `T | undefined` does not tag its cases, so `Last<[1, undefined]>`
  and `Last<[]>` both give `undefined`; the model's `Option` tells `Some(undefined)` from
  `None`, which the source does not.
