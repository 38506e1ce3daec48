# A verified model of the atto-ts reactive State graph

atto-ts keeps derived values consistent with mutable roots by pushing and
pulling. Writing a root (`MutableState.set`, `MutableStateList.set`) replaces
its value. It then walks the `dependents` lists depth first and sets
`needsRecomputation` on every node it reaches. Reading a derived node
(`StateMap.value`, `StateListAccess.value`) recomputes only when that flag is
set. It caches the result and clears its own flag; otherwise it returns the
cache. A `StateMap` computes its first value eagerly, when it is constructed.
A `StateListAccess` starts dirty.

The model keeps the graph as an arena, the class `Signal.Graph`. Nodes are
addressed by creation index, and four sequences hold each node's kind, its
`_value` (`cache`), its `needsRecomputation` (`dirty`) and its `dependents`.
A node's kind is one of:

- `MutableNode`, for `MutableState`;
- `MapNode(source, pred)`, for `StateMap`;
- `ListNode`, for `MutableStateList`;
- `AccessNode(list, index)`, for `StateListAccess`.

Every operation of `src/signal.ts` and `src/signal_list.ts` is a method of
that class, and nodes come into being only through those methods: a derived
node is always created by `map` or `get` and so registered with its source
(direct construction is under "Left out"). They share one class because `value()` dispatches over all four
kinds (`Signal.Graph.Value`).

The module `Semantics` states what the graph means, on snapshots of those
sequences:

- `WellFormed`: sources are created before their dependents, and `deps[n]`
  lists exactly the nodes whose source is `n`. So the dependents graph is a
  forest ordered by creation index.
- `Eval`: the value a node denotes under the current root values.
- `Pull`: the value a lazy read returns.
- `Reach`: reachability through `dependents`.
- `Visited` and `ReadEffect`: the nodes a read recomputes (the node and, up its
  source chain, every dirty node before the first clean one or root), and what
  the read does to them.
- `Marked`: the flags a push leaves.
- `Coherent`: every clean node caches its denotation, and every clean
  derived node has a clean source.

The lemmas show that:

- every write and every read keeps coherence, except `splice`;
- a read on a coherent graph returns the denotation (`PullIsEval`);
- `splice` is the one operation that breaks coherence.

`Values` holds the single value type: `undefined`, integers, strings and
arrays. It also holds the JavaScript array operations the list performs.
`Scenario` holds the counter app of `index.ts` and four other client programs.

## Model

| member | source | states |
|---|---|---|
| `Signal.Graph.NewState` | src/signal.ts:43-50 | `state(v)` appends a root holding `v`. It is clean, has no dependents, and nothing else changes. Coherence is kept. |
| `Signal.Graph.NewList` | src/signal.ts:16-22 | A new `MutableStateList` over an array is a clean root with no dependents, holding the array. Coherence is kept. |
| `Signal.Graph.Map` | src/signal.ts:28-32 | `map(f)` first reads the source, as the `StateMap` constructor does (lines 67-72). It returns a new node with empty `dependents` and appends exactly that node to the source's `dependents`; no other list changes. The new node is clean and caches `f` of what the read returned. The read has exactly its `ReadEffect` on the existing nodes: every node it visits (`Visited`, the dirty nodes up the source chain) ends clean and caches what reading it returned (`Pull` before the read), and every other node keeps its cache and flag. This holds on an incoherent graph too. No root's value changes. On a coherent graph the graph stays coherent and the cache is the node's denotation. |
| `Signal.Graph.PushNeedsRecomputationFlag` | src/signal.ts:34-39 | Afterwards the flags are exactly `Marked`: every node reachable through `dependents` is dirty and every other flag is unchanged. No cached value and no `dependents` list changes. It terminates because each recursive call goes to a later-created node. |
| `Signal.Graph.Set` | src/signal.ts:53-56 | The root's value becomes `v` and no other cache changes. Every transitive dependent is dirty and no other flag changes. A following `value()` returns `v`. Coherence is kept. |
| `Signal.Graph.StateValue` | src/signal.ts:58 | `MutableState.value()` returns the root's value, which is its denotation. It does not read the flag and changes nothing. |
| `Signal.Graph.MapValue` | src/signal.ts:74-82 | A dirty node recomputes `pred(source.value())`, caches the result and clears its own flag. A clean node returns its cache and changes nothing. Exactly the nodes the read visits change: each ends clean and caches its `Pull` from before the read, and every other node keeps its cache and flag, coherent graph or not. So the source, when it was dirty, is clean afterwards. Roots and `dependents` never change. On a coherent graph it returns the node's denotation and keeps coherence. |
| `Signal.Graph.Value` | src/signal.ts:24-25 | `value()` on any node returns `Pull` of the state before the read, and leaves the node clean with that value cached. It has exactly `ReadEffect`: every node the read visits ends clean, caching its `Pull` from before the read, and no other node changes. On a coherent graph it returns `Eval` of the node. |
| `Signal.Graph.ListValue` | src/signal_list.ts:8-10 | `MutableStateList.value()` returns the current array, which is the list's denotation. It never recomputes and changes nothing. |
| `Signal.Graph.UGet` | src/signal_list.ts:13-15 | `uget(i)` returns the element when `0 <= i < length` and `undefined` otherwise. It never fails and changes nothing. |
| `Signal.Graph.Get` | src/signal_list.ts:17-21 | `get(i)` appends a new accessor bound to `(list, i)` to the list's `dependents`, and no other list changes. The accessor holds `undefined` and starts dirty (lines 39-44), so its first `value()` returns `uget(i)`. Coherence is kept. |
| `Signal.Graph.ListSet` | src/signal_list.ts:24-27 | `set(i, x)` for an array index `0 <= i < 2^32 - 1`: afterwards `uget(i) == x`. Every other index reads as before. The length is unchanged when `i < length`. Every transitive dependent is dirty and no other flag changes. Coherence is kept. |
| `Signal.Graph.Splice` | src/signal_list.ts:29-32 | `splice(i, x)` inserts `x` at the position `Array.prototype.splice` takes `i` to; that is `i` itself when `0 <= i <= length`. No flag changes. |
| `Signal.Graph.SpliceAndNotify` | src/signal_list.ts:29-32 | The insertion the comment at line 29 describes: `splice` followed by a push to dependents. Coherence is kept. |
| `Signal.Graph.AccessValue` | src/signal_list.ts:46-53 | A dirty accessor caches `uget(index)` and clears its flag. A clean one returns its cache. No other node changes. On a coherent graph it returns the accessor's denotation. |
| `Values.WriteSpec` | src/signal_list.ts:25 | A write at `i` makes `i` read `x` and leaves every other index reading as before. The length grows to `i + 1` only when `i` is past the end. |
| `Values.Insert` | src/signal_list.ts:31 | The insertion grows the length by one and puts `x` at `p`. Elements before `p` are unchanged; the others shift up by one. |
| `Values.SpliceStart` | src/signal_list.ts:31 | The insertion point lies within `0..length`, and it is `i` itself when `0 <= i <= length`. |
| `Semantics.ReachForward` | src/signal.ts:34-39 | Every node reached from `n` through `dependents` was created after `n`, so no node reaches itself: the dependents graph has no cycle. |
| `Semantics.ReachExtend` | src/signal.ts:34-39 | Reachability passes on to the dependents of a reached node. |
| `Semantics.ReachFromSource` | src/signal.ts:28-32 | In a well-formed arena, the one `map` and `get` build since they register each derived node with its source, every derived node is reached from its source. |
| `Semantics.SettleRead` | src/signal.ts:74-82 | If reading the source had the source's `ReadEffect`, then caching `pred` of what it returned at the dirty map node and clearing the node's flag is the node's own `ReadEffect`. |
| `Semantics.VisitedReached` | src/signal.ts:74-82 | Every node a read of `n` visits is `n` or a node `n` is reached from through `dependents`: a read only walks up the source chain. |
| `Semantics.WellFormedForward` | src/signal.ts:28-32 | Every dependent is created after the node that lists it. |
| `Semantics.AppendDerivedWellFormed` | src/signal.ts:28-32 | Appending a derived node and registering it with its source keeps the arena well formed. |
| `Semantics.EvalRoots` | src/signal.ts:24 | A node's denotation depends on the roots' values only. Recomputing caches never changes what anything denotes. |
| `Semantics.EvalAway` | src/signal.ts:53-56 | Writing root `r` changes the denotation of no node that is unreachable from `r`. |
| `Semantics.EvalAppend` | src/signal.ts:28-32 | Creating a node changes no existing node's denotation. |
| `Semantics.PullIsEval` | src/signal.ts:74-82 | On a coherent graph, what a read returns is what the node denotes. |
| `Semantics.MarkedCoherent` | src/signal.ts:53-56 | Writing a root and pushing from it turns a coherent graph into a coherent graph. |
| `Semantics.SettleCoherent` | src/signal.ts:74-82 | Caching a derived node's denotation and clearing its flag keeps coherence, provided its source is clean. |
| `Semantics.AppendCoherent` | src/signal.ts:67-72 | A new node keeps coherence if it is dirty, or clean with its denotation cached and a clean source. This is the eager construction policy. |
| `Semantics.AccessAfterSet` | src/signal_list.ts:24-27 | After `set(i, x)` and its push, every accessor bound to index `i` reads `x`, whatever state the graph was in before. |
| `Semantics.SpliceLeavesAccessorStale` | src/signal_list.ts:29-32 | After an insertion that moves the element under a clean accessor, the accessor keeps returning its old cache. That cache is no longer its denotation, so the graph is no longer coherent. |
| `Scenario.CounterApp` | index.ts:3-10 | `state(0)`, mapped to `` `Counter: ${x}` ``, then mapped to upper case, then `set(10)`: reading the last node yields "COUNTER: 10". |
| `Scenario.CounterTextUpper` | index.ts:5-6 | The two predicates of the counter app turn 10 into "COUNTER: 10". |
| `Scenario.SpliceStaleness` | src/signal_list.ts:29-32 | On list [1, 2], an accessor at index 0 is read (1), then `splice(0, 9)` runs. The accessor still reads 1 while `uget(0)` is 9. After the notifying insertion it reads 9. |
| `Scenario.StaleMapAfterSplice` | src/signal.ts:67-82 | After `splice`, a map node over a stale accessor stays stale: on list [1, 2] with accessor `a` at 0 and `m := a.map(x => x)`, after `set(1, 5)`, a second read of `a` and `splice(0, 9)`, the eager read in `m.map(x => x)` cleans `m` from `a`'s cache, and `m` reads 1 while `uget(0)` is 9. |
| `Scenario.ReadCleansSource` | src/signal.ts:74-82 | Reading a dirty map node leaves both the node and its source clean, whether or not the graph is coherent, since `source.value()` clears the source's flag (src/signal.ts:78, src/signal_list.ts:49). |
| `Scenario.ReadTwice` | src/signal.ts:74-82 | Two reads with no write between them return the same value. |

## Left out

- `src/prelude.ts` and `src/element.ts` are not part of this model. `FrozenState`, `StateZip`, `States` and `CompositePredicate`, which `src/prelude.ts:1` imports, are not defined in `src/signal.ts`. So constant nodes, multi-source (zip) nodes and `flatWrap` have no source to model.
- `StateContext` (src/signal.ts:6-12) is never used. `Functor` (src/signal.ts:1-4) is a type only.
- `predicate.call(sourceValue, sourceValue)` binds `this` to the source value. It is modelled as plain application of a total function.
- A predicate that throws is not modelled: every `pred` is a total Dafny function. In the source a throw at src/signal.ts:77 would leave the flag set.
- Generic typing is replaced by the single type `Values.Value`, with integers only (no fractions, NaN or infinities). Indices are integers.
- Object identity and aliasing are not captured. The list's backing array is shared with callers of `value()` and with any predicate that keeps it. The model stores the array as a value, so a `StateMap` that cached the list's array does not see a later in-place `set` or `splice`.
- There is no garbage collection or disposal; nodes are never removed, as in the source.
- Signal.Graph.ListSet: requires `0 <= i < 2^32 - 1`, the array indices. A negative index, or one from 2^32 - 1 on, creates an ordinary property in JavaScript, leaving `length` alone, and `uget` would then read it; that is not modelled. For `i` at or past the length, the array grows with holes, as JavaScript does. The code does not raise a range error there.
- Scenario.UpperCase: upper-cases ASCII letters only. It turns `undefined` into "UNDEFINED", where `toUpperCase` on `undefined` throws.
- `Values.Show` prints safe integers and arrays as JavaScript does. Number formatting of non-integers is not modelled.
- The dirty-propagation walk is modelled recursively, as written.
- Nodes are created only through `state`, a new list, `map` and `get`, so every derived node is registered with its source and the dependents graph is an acyclic forest (`Semantics.WellFormed`). The source also lets clients call `new StateMap(src, f)` or `new StateListAccess(list, i)` directly (src/signal.ts:67-72, src/signal_list.ts:39-44); such a node is never pushed to `src.dependents`, so no write ever dirties it. Direct construction is not modelled.
- Writes to the public `dependents` array (src/signal.ts:16) are not modelled. A back edge such as `a.dependents.push(a)` makes `pushNeedsRecomputationFlag` recurse without end; the model's push terminates only because such edges cannot be built.
- Values.Value: integers are meant only in JavaScript's safe-integer range (magnitude at most 2^53 - 1). Beyond it JavaScript numbers are not exact, and from 10^21 on `${n}` prints exponent notation ("1e+21") where `NumberText` prints all digits.
- Signal.Graph.Splice: does not model the range error `splice` throws when the array already holds 2^32 - 1 elements; the model always inserts.

## Findings

| source | as written | input that shows it | evidently intended | confidence | as-written member | corrected member |
|---|---|---|---|---|---|---|
| src/signal_list.ts:29-32 | `splice` inserts into the array but never calls `pushNeedsRecomputationFlag`, though its comment says it updates dependents | list [1, 2]; `get(0)` read once (1); `splice(0, 9)`; the accessor still reads 1 while `uget(0)` is 9 (`Scenario.SpliceStaleness`, `Semantics.SpliceLeavesAccessorStale`) | push dirty flags after the insertion, as `set` does, so coherence is kept | high; not executed | `Signal.Graph.Splice` | `Signal.Graph.SpliceAndNotify` |
