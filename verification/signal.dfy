/** The State graph as the program keeps it: an arena of nodes addressed by
    creation index, whose fields the operations update in place. It covers the
    nodes of `src/signal.ts` (`MutableState`, `StateMap`, the shared `State`
    base) and of `src/signal_list.ts` (`MutableStateList`, `StateListAccess`);
    both live in one class because `value()` dispatches to every kind. */
module Signal {
  import opened Values
  import opened Semantics

  class Graph {
    /** What each node is; a derived node's kind names its source. */
    var kinds: seq<Kind>
    /** Each node's `_value`. */
    var cache: seq<Value>
    /** Each node's `needsRecomputation`. */
    var dirty: seq<bool>
    /** Each node's `dependents`, in registration order. */
    var dependents: seq<seq<nat>>

    ghost predicate Valid()
      reads this
    {
      WellFormed(kinds, cache, dirty, dependents)
    }

    /** Every clean node caches what it denotes under the current roots. */
    ghost predicate Coherent()
      reads this
      requires Valid()
    {
      Semantics.Coherent(kinds, cache, dirty)
    }

    /** An empty graph. */
    constructor ()
      ensures Valid() && Coherent()
      ensures kinds == [] && dependents == []
    {
      kinds, cache, dirty, dependents := [], [], [], [];
    }

    /** `state(v)`: a new root holding `v`, clean, with no dependents. */
    method NewState(v: Value) returns (n: nat)
      requires Valid()
      modifies this
      ensures Valid()
      ensures n == old(|kinds|)
      ensures kinds == old(kinds) + [MutableNode] && cache == old(cache) + [v]
      ensures dirty == old(dirty) + [false] && dependents == old(dependents) + [[]]
      ensures old(Coherent()) ==> Coherent()
    {
      n := |kinds|;
      if Coherent() {
        AppendCoherent(kinds, cache, dirty, MutableNode, v, false);
      }
      kinds, cache, dirty, dependents := kinds + [MutableNode], cache + [v], dirty + [false], dependents + [[]];
    }

    /** A new list root over the array `xs`, clean, with no dependents. */
    method NewList(xs: seq<Value>) returns (n: nat)
      requires Valid()
      modifies this
      ensures Valid()
      ensures n == old(|kinds|)
      ensures kinds == old(kinds) + [ListNode] && cache == old(cache) + [Arr(xs)]
      ensures dirty == old(dirty) + [false] && dependents == old(dependents) + [[]]
      ensures old(Coherent()) ==> Coherent()
    {
      n := |kinds|;
      if Coherent() {
        AppendCoherent(kinds, cache, dirty, ListNode, Arr(xs), false);
      }
      kinds, cache, dirty, dependents := kinds + [ListNode], cache + [Arr(xs)], dirty + [false], dependents + [[]];
    }

    /** `State.map(f)` on node `s`, with the `StateMap` constructor: reads the
        source first, then creates a clean node caching `f` of what was read,
        with no dependents, and appends it to the source's `dependents`. No
        other node's `dependents` changes and no root's value changes. */
    method Map(s: nat, f: Value -> Value) returns (n: nat)
      requires Valid() && s < |kinds|
      modifies this
      ensures Valid()
      ensures n == old(|kinds|)
      ensures kinds == old(kinds) + [MapNode(s, f)]
      ensures dependents == old(dependents)[s := old(dependents)[s] + [n]] + [[]]
      ensures !dirty[n] && cache[n] == f(Pull(old(kinds), old(cache), old(dirty), s))
      ensures ReadEffect(old(kinds), old(cache), old(dirty), cache[..n], dirty[..n], s)
      ensures old(Coherent()) ==> Coherent() && cache[n] == Eval(kinds, cache, n)
    {
      ghost var wasCoherent := Coherent();
      ghost var cache0 := cache;
      var sourceValue := Value(s);
      var node := MapNode(s, f);
      n := |kinds|;
      AppendDerivedWellFormed(kinds, cache, dirty, dependents, node, f(sourceValue), false);
      if wasCoherent {
        PullIsEval(kinds, cache0, old(dirty), dependents, s);
        EvalRoots(kinds, cache0, cache, s);
        EvalAppend(kinds, cache, node, f(sourceValue), s);
        AppendCoherent(kinds, cache, dirty, node, f(sourceValue), false);
      }
      kinds, cache, dirty := kinds + [node], cache + [f(sourceValue)], dirty + [false];
      dependents := dependents[s := dependents[s] + [n]] + [[]];
    }

    /** `pushNeedsRecomputationFlag` on node `n`: depth first through
        `dependents`, every node reached is marked dirty; no other flag, no
        cached value and no `dependents` list changes. It terminates because
        every dependent was created after the node that lists it. */
    method PushNeedsRecomputationFlag(n: nat)
      requires Valid() && n < |kinds|
      modifies this`dirty
      ensures Valid() && Forward(dependents)
      ensures dirty == Marked(dependents, old(dirty), n)
      decreases |kinds| - n
    {
      WellFormedForward(kinds, cache, dirty, dependents);
      var deps := dependents[n];
      var j := 0;
      while j < |deps|
        invariant 0 <= j <= |deps|
        invariant Valid() && Forward(dependents)
        invariant |dirty| == |old(dirty)|
        invariant forall m :: 0 <= m < |dirty| ==>
          dirty[m] == (old(dirty)[m] || exists k :: 0 <= k < j && (deps[k] == m || Reach(dependents, deps[k], m)))
      {
        var dep := deps[j];
        dirty := dirty[dep := true];
        PushNeedsRecomputationFlag(dep);
        j := j + 1;
      }
    }

    /** `MutableState.set(v)`: replaces the root's value, then pushes dirty
        flags to everything reached from it. */
    method Set(r: nat, v: Value)
      requires Valid() && r < |kinds| && kinds[r].MutableNode?
      modifies this`cache, this`dirty
      ensures Valid() && Forward(dependents)
      ensures cache == old(cache)[r := v]
      ensures dirty == Marked(dependents, old(dirty), r)
      ensures Pull(kinds, cache, dirty, r) == v
      ensures old(Coherent()) ==> Coherent()
    {
      if Coherent() {
        MarkedCoherent(kinds, cache, dirty, dependents, r, v);
      }
      cache := cache[r := v];
      PushNeedsRecomputationFlag(r);
    }

    /** `MutableState.value()`: the root's value, without looking at any flag
        and without changing anything. */
    method StateValue(n: nat) returns (v: Value)
      requires Valid() && n < |kinds| && kinds[n].MutableNode?
      ensures v == Eval(kinds, cache, n) && v == Pull(kinds, cache, dirty, n)
    {
      v := cache[n];
    }

    /** `StateMap.value()`: a dirty node reads its source (which may in turn
        recompute), caches the predicate's result and clears its own flag; a
        clean node returns its cache and changes nothing. */
    method MapValue(n: nat) returns (v: Value)
      requires Valid() && n < |kinds| && kinds[n].MapNode?
      modifies this`cache, this`dirty
      ensures Valid() && Forward(dependents)
      ensures v == Pull(kinds, old(cache), old(dirty), n)
      ensures v == cache[n] && !dirty[n]
      ensures ReadEffect(kinds, old(cache), old(dirty), cache, dirty, n)
      ensures !old(dirty[n]) ==> cache == old(cache) && dirty == old(dirty)
      ensures old(Coherent()) ==> Coherent() && v == Eval(kinds, cache, n)
      decreases n, 0
    {
      WellFormedForward(kinds, cache, dirty, dependents);
      if dirty[n] {
        var s := kinds[n].source;
        ghost var cache0, dirty0 := cache, dirty;
        var sourceValue := Value(s);
        ghost var cache1, dirty1 := cache, dirty;
        var computed := kinds[n].pred(sourceValue);
        SettleWellFormed(kinds, cache, dirty, dependents, n, computed);
        cache := cache[n := computed];
        dirty := dirty[n := false];
        SettleRead(kinds, cache0, dirty0, cache1, dirty1, n, computed);
        if Semantics.Coherent(kinds, cache0, dirty0) {
          PullIsEval(kinds, cache0, dirty0, dependents, s);
          EvalRoots(kinds, cache0, cache1, s);
          SettleCoherent(kinds, cache1, dirty1, n, computed);
          EvalRoots(kinds, cache1, cache, n);
        }
      }
      v := cache[n];
    }

    /** `value()` on any node, dispatched on its kind. It returns what `Pull`
        says, leaves node `n` clean with that value cached, and has exactly
        `ReadEffect`: the dirty nodes up the source chain that the read visits
        end clean, caching what reading them returns, and nothing else
        changes; a clean node is read without recomputing; and on a coherent
        graph it returns what `n` denotes. */
    method Value(n: nat) returns (v: Value)
      requires Valid() && n < |kinds|
      modifies this`cache, this`dirty
      ensures Valid() && Forward(dependents)
      ensures v == Pull(kinds, old(cache), old(dirty), n)
      ensures v == cache[n] && !dirty[n]
      ensures ReadEffect(kinds, old(cache), old(dirty), cache, dirty, n)
      ensures !old(dirty[n]) ==> cache == old(cache) && dirty == old(dirty)
      ensures old(Coherent()) ==> Coherent() && v == Eval(kinds, cache, n)
      decreases n, 1
    {
      WellFormedForward(kinds, cache, dirty, dependents);
      match kinds[n]
      case MutableNode =>
        v := StateValue(n);
      case ListNode =>
        var xs := ListValue(n);
        v := Arr(xs);
      case MapNode(_, _) =>
        v := MapValue(n);
      case AccessNode(_, _) =>
        v := AccessValue(n);
    }

    /** `MutableStateList.value()`: the backing array, without recomputing
        and without changing anything. */
    method ListValue(l: nat) returns (xs: seq<Value>)
      requires Valid() && l < |kinds| && kinds[l].ListNode?
      ensures Arr(xs) == Eval(kinds, cache, l) && Arr(xs) == Pull(kinds, cache, dirty, l)
    {
      xs := cache[l].elems;
    }

    /** `MutableStateList.uget(i)`: the element at `i` when `0 <= i < length`,
        `undefined` otherwise; it never fails and changes nothing. */
    method UGet(l: nat, i: int) returns (v: Value)
      requires Valid() && l < |kinds| && kinds[l].ListNode?
      ensures 0 <= i < |cache[l].elems| ==> v == cache[l].elems[i]
      ensures !(0 <= i < |cache[l].elems|) ==> v == Absent
      ensures v == At(Eval(kinds, cache, l), i)
    {
      var xs := cache[l].elems;
      v := if 0 <= i < |xs| then xs[i] else Absent;
    }

    /** `MutableStateList.get(i)` with the `StateListAccess` constructor: a new
        accessor bound to index `i`, holding `undefined` and dirty, appended to
        the list's `dependents`; its first read returns `uget(i)`. */
    method Get(l: nat, i: int) returns (a: nat)
      requires Valid() && l < |kinds| && kinds[l].ListNode?
      modifies this
      ensures Valid()
      ensures a == old(|kinds|)
      ensures kinds == old(kinds) + [AccessNode(l, i)]
      ensures cache == old(cache) + [Absent] && dirty == old(dirty) + [true]
      ensures dependents == old(dependents)[l := old(dependents)[l] + [a]] + [[]]
      ensures Pull(kinds, cache, dirty, a) == At(cache[l], i)
      ensures old(Coherent()) ==> Coherent()
    {
      var node := AccessNode(l, i);
      a := |kinds|;
      AppendDerivedWellFormed(kinds, cache, dirty, dependents, node, Absent, true);
      if Coherent() {
        AppendCoherent(kinds, cache, dirty, node, Absent, true);
      }
      kinds, cache, dirty := kinds + [node], cache + [Absent], dirty + [true];
      dependents := dependents[l := dependents[l] + [a]] + [[]];
    }

    /** `MutableStateList.set(i, x)` for an array index `i` (below 2^32 - 1):
        writes the element (growing the array with holes when `i` is past its
        end), then pushes dirty flags to everything reached from the list.
        Afterwards `uget(i)` is `x` and every other index reads as before. */
    method ListSet(l: nat, i: nat, x: Value)
      requires Valid() && l < |kinds| && kinds[l].ListNode? && i < 0xFFFF_FFFF
      modifies this`cache, this`dirty
      ensures Valid() && Forward(dependents)
      ensures cache == old(cache)[l := Arr(Write(old(cache)[l].elems, i, x))]
      ensures dirty == Marked(dependents, old(dirty), l)
      ensures i < |old(cache)[l].elems| ==> |cache[l].elems| == |old(cache)[l].elems|
      ensures At(cache[l], i) == x
      ensures forall j :: j != i ==> At(cache[l], j) == At(old(cache)[l], j)
      ensures old(Coherent()) ==> Coherent()
    {
      WriteSpec(cache[l].elems, i, x);
      var written := Arr(Write(cache[l].elems, i, x));
      if Coherent() {
        MarkedCoherent(kinds, cache, dirty, dependents, l, written);
      }
      cache := cache[l := written];
      PushNeedsRecomputationFlag(l);
    }

    /** `MutableStateList.splice(start, x)`: inserts `x` at the position
        `Array.prototype.splice` takes `start` to; elements before it stay,
        elements from it on move up by one. No flag changes, so accessors
        already read keep their old caches (see SpliceLeavesAccessorStale). */
    method Splice(l: nat, start: int, x: Value)
      requires Valid() && l < |kinds| && kinds[l].ListNode?
      modifies this`cache
      ensures Valid()
      ensures cache == old(cache)[l := Arr(Insert(old(cache)[l].elems, SpliceStart(|old(cache)[l].elems|, start), x))]
      ensures dirty == old(dirty)
    {
      var xs := cache[l].elems;
      cache := cache[l := Arr(Insert(xs, SpliceStart(|xs|, start), x))];
    }

    /** `splice` as its comment describes it: the same insertion, followed by
        the push that `set` performs, so the graph stays coherent. */
    method SpliceAndNotify(l: nat, start: int, x: Value)
      requires Valid() && l < |kinds| && kinds[l].ListNode?
      modifies this`cache, this`dirty
      ensures Valid() && Forward(dependents)
      ensures cache == old(cache)[l := Arr(Insert(old(cache)[l].elems, SpliceStart(|old(cache)[l].elems|, start), x))]
      ensures dirty == Marked(dependents, old(dirty), l)
      ensures old(Coherent()) ==> Coherent()
    {
      var xs := cache[l].elems;
      var inserted := Arr(Insert(xs, SpliceStart(|xs|, start), x));
      if Coherent() {
        MarkedCoherent(kinds, cache, dirty, dependents, l, inserted);
      }
      cache := cache[l := inserted];
      PushNeedsRecomputationFlag(l);
    }

    /** `StateListAccess.value()`: a dirty accessor re-reads `uget(index)`,
        caches it and clears its flag; a clean one returns its cache. Only
        the accessor itself changes. */
    method AccessValue(n: nat) returns (v: Value)
      requires Valid() && n < |kinds| && kinds[n].AccessNode?
      modifies this`cache, this`dirty
      ensures Valid()
      ensures v == Pull(kinds, old(cache), old(dirty), n)
      ensures cache == old(cache)[n := v] && dirty == old(dirty)[n := false]
      ensures old(Coherent()) ==> Coherent() && v == Eval(kinds, cache, n)
    {
      if dirty[n] {
        var u := UGet(kinds[n].list, kinds[n].index);
        SettleWellFormed(kinds, cache, dirty, dependents, n, u);
        if Coherent() {
          SettleCoherent(kinds, cache, dirty, n, u);
        }
        cache := cache[n := u];
        dirty := dirty[n := false];
      }
      v := cache[n];
    }
  }
}
