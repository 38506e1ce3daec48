/** What the reactive State graph means, stated on snapshots of its arena:
    the node kinds, the well-formedness of the arena, the value each node
    denotes (`Eval`), the value a lazy read returns (`Pull`), reachability
    through `dependents` (`Reach`), the flags a push leaves (`Marked`), and the
    cache-coherence invariant (`Coherent`), with the lemmas that connect them.

    A node is addressed by its creation index. A snapshot is four sequences of
    equal length: `kinds`, `cache` (each node's `_value`), `dirty` (each
    node's `needsRecomputation`) and `deps` (each node's `dependents`). */
module Semantics {
  import opened Values

  /** The four concrete classes of node. */
  datatype Kind =
    | MutableNode                                     // MutableState
    | MapNode(source: nat, pred: Value -> Value)      // StateMap
    | ListNode                                        // MutableStateList
    | AccessNode(list: nat, index: int)               // StateListAccess
  {
    /** Roots hold the source of truth; they have no source of their own. */
    predicate IsRoot() { MutableNode? || ListNode? }

    /** The one node a derived node reads from. */
    function Source(): nat
      requires !IsRoot()
    {
      if MapNode? then source else list
    }
  }

  /** Every derived node's source was created before it. */
  ghost predicate Ordered(kinds: seq<Kind>)
  {
    forall n :: 0 <= n < |kinds| && !kinds[n].IsRoot() ==> kinds[n].Source() < n
  }

  /** Every dependent was created after the node that lists it. */
  ghost predicate Forward(deps: seq<seq<nat>>)
  {
    forall n, k :: 0 <= n < |deps| && 0 <= k < |deps[n]| ==> n < deps[n][k] < |deps|
  }

  ghost predicate Sized(kinds: seq<Kind>, cache: seq<Value>, dirty: seq<bool>)
  {
    Ordered(kinds) && |cache| == |kinds| && |dirty| == |kinds|
  }

  /** The shape every reachable arena has: sources come first, accessors read
      lists, a list's value is an array, roots are never dirty, and `deps[n]`
      lists exactly the nodes whose source is `n`. */
  ghost predicate WellFormed(kinds: seq<Kind>, cache: seq<Value>, dirty: seq<bool>, deps: seq<seq<nat>>)
  {
    && Sized(kinds, cache, dirty)
    && |deps| == |kinds|
    && (forall n :: 0 <= n < |kinds| && kinds[n].AccessNode? ==> kinds[kinds[n].list].ListNode?)
    && (forall n :: 0 <= n < |kinds| && kinds[n].ListNode? ==> cache[n].Arr?)
    && (forall n :: 0 <= n < |kinds| && kinds[n].IsRoot() ==> !dirty[n])
    && (forall n, k :: 0 <= n < |kinds| && 0 <= k < |deps[n]| ==>
          deps[n][k] < |kinds| && !kinds[deps[n][k]].IsRoot() && kinds[deps[n][k]].Source() == n)
    && (forall m :: 0 <= m < |kinds| && !kinds[m].IsRoot() ==> m in deps[kinds[m].Source()])
  }

  /** The value node `n` stands for under the current root values: a root's
      own value, the predicate applied to the source's value, or the element
      of the list at the accessor's index. */
  ghost function Eval(kinds: seq<Kind>, cache: seq<Value>, n: nat): Value
    requires Ordered(kinds) && |cache| == |kinds| && n < |kinds|
    decreases n
  {
    match kinds[n]
    case MutableNode => cache[n]
    case ListNode => cache[n]
    case MapNode(s, f) => f(Eval(kinds, cache, s))
    case AccessNode(l, i) => At(Eval(kinds, cache, l), i)
  }

  /** The value `value()` returns on node `n`: the cache of a root or of a
      clean node; for a dirty map node the predicate applied to what reading
      its source returns; for a dirty accessor the list's element. */
  ghost function Pull(kinds: seq<Kind>, cache: seq<Value>, dirty: seq<bool>, n: nat): Value
    requires Sized(kinds, cache, dirty) && n < |kinds|
    decreases n
  {
    if kinds[n].IsRoot() || !dirty[n] then cache[n]
    else match kinds[n]
      case MapNode(s, f) => f(Pull(kinds, cache, dirty, s))
      case AccessNode(l, i) => At(cache[l], i)
  }

  /** `m` is reached from `n` by following `dependents` one or more times. */
  ghost predicate Reach(deps: seq<seq<nat>>, n: nat, m: nat)
    requires Forward(deps) && n < |deps|
    decreases |deps| - n
  {
    exists k :: 0 <= k < |deps[n]| && (deps[n][k] == m || Reach(deps, deps[n][k], m))
  }

  /** The dirty flags after a push from `r`: every node reached from `r` is
      dirty, every other flag is as before. */
  ghost function Marked(deps: seq<seq<nat>>, dirty: seq<bool>, r: nat): (d: seq<bool>)
    requires Forward(deps) && |dirty| == |deps| && r < |deps|
    ensures |d| == |dirty|
  {
    seq(|dirty|, m requires 0 <= m < |dirty| => dirty[m] || Reach(deps, r, m))
  }

  /** Cache coherence: a clean node's cache is the value it denotes, and a
      clean derived node has a clean source. */
  ghost predicate Coherent(kinds: seq<Kind>, cache: seq<Value>, dirty: seq<bool>)
    requires Sized(kinds, cache, dirty)
  {
    && (forall n :: 0 <= n < |kinds| && !dirty[n] ==> cache[n] == Eval(kinds, cache, n))
    && (forall n :: 0 <= n < |kinds| && !dirty[n] && !kinds[n].IsRoot() ==> !dirty[kinds[n].Source()])
  }

  /** The nodes a read of `n` visits and recomputes: `n` itself when it is
      a dirty derived node and, for a map node, what reading its source
      visits. A root or a clean node is answered from its cache. */
  ghost function Visited(kinds: seq<Kind>, dirty: seq<bool>, n: nat): (r: set<nat>)
    requires Ordered(kinds) && |dirty| == |kinds| && n < |kinds|
    ensures forall m :: m in r ==> m <= n && dirty[m] && !kinds[m].IsRoot()
    ensures !kinds[n].IsRoot() && dirty[n] <==> n in r
    decreases n
  {
    if kinds[n].IsRoot() || !dirty[n] then {}
    else if kinds[n].MapNode? then {n} + Visited(kinds, dirty, kinds[n].source)
    else {n}
  }

  /** What a read of `n` does to the arena: exactly the nodes it visits
      change, each being cleaned and caching what reading it returns (`Pull`
      on the first snapshot); every other node keeps its cache and flag. */
  ghost predicate ReadEffect(kinds: seq<Kind>, cache: seq<Value>, dirty: seq<bool>,
                             cache': seq<Value>, dirty': seq<bool>, n: nat)
    requires Sized(kinds, cache, dirty) && |cache'| == |dirty'| == |kinds| && n < |kinds|
  {
    && (forall m :: m in Visited(kinds, dirty, n) ==> !dirty'[m] && cache'[m] == Pull(kinds, cache, dirty, m))
    && (forall m :: 0 <= m < |kinds| && m !in Visited(kinds, dirty, n) ==>
          cache'[m] == cache[m] && dirty'[m] == dirty[m])
  }

  lemma WellFormedForward(kinds: seq<Kind>, cache: seq<Value>, dirty: seq<bool>, deps: seq<seq<nat>>)
    requires WellFormed(kinds, cache, dirty, deps)
    ensures Forward(deps)
  {
    forall n, k | 0 <= n < |deps| && 0 <= k < |deps[n]| ensures n < deps[n][k] < |deps| {
      var m := deps[n][k];
      assert kinds[m].Source() == n;
    }
  }

  /** What is reached from `n` was created after it, so no node reaches
      itself: the dependents graph has no cycle. */
  lemma {:induction false} ReachForward(deps: seq<seq<nat>>, n: nat, m: nat)
    requires Forward(deps) && n < |deps| && Reach(deps, n, m)
    ensures n < m < |deps|
    decreases |deps| - n
  {
    var k :| 0 <= k < |deps[n]| && (deps[n][k] == m || Reach(deps, deps[n][k], m));
    if deps[n][k] != m {
      ReachForward(deps, deps[n][k], m);
    }
  }

  /** A node reached from `a` passes reachability on to its own dependents. */
  lemma {:induction false} ReachExtend(deps: seq<seq<nat>>, a: nat, s: nat, m: nat)
    requires Forward(deps) && a < |deps| && s < |deps|
    requires Reach(deps, a, s) && m in deps[s]
    ensures Reach(deps, a, m)
    decreases |deps| - a
  {
    var k :| 0 <= k < |deps[a]| && (deps[a][k] == s || Reach(deps, deps[a][k], s));
    var j :| 0 <= j < |deps[s]| && deps[s][j] == m;
    assert Reach(deps, s, m);
    if deps[a][k] != s {
      ReachExtend(deps, deps[a][k], s, m);
    }
    assert deps[a][k] == m || Reach(deps, deps[a][k], m);
  }

  /** A derived node is reached from its source. */
  lemma ReachFromSource(kinds: seq<Kind>, cache: seq<Value>, dirty: seq<bool>, deps: seq<seq<nat>>, m: nat)
    requires WellFormed(kinds, cache, dirty, deps) && m < |kinds| && !kinds[m].IsRoot()
    ensures Forward(deps) && Reach(deps, kinds[m].Source(), m)
  {
    WellFormedForward(kinds, cache, dirty, deps);
    var s := kinds[m].Source();
    var j :| 0 <= j < |deps[s]| && deps[s][j] == m;
  }

  /** What a node denotes depends on the roots' values only. */
  lemma {:induction false} EvalRoots(kinds: seq<Kind>, cache: seq<Value>, cache': seq<Value>, n: nat)
    requires Ordered(kinds) && |cache| == |kinds| == |cache'| && n < |kinds|
    requires forall r :: 0 <= r < |kinds| && kinds[r].IsRoot() ==> cache'[r] == cache[r]
    ensures Eval(kinds, cache', n) == Eval(kinds, cache, n)
    decreases n
  {
    if !kinds[n].IsRoot() {
      EvalRoots(kinds, cache, cache', kinds[n].Source());
    }
  }

  /** Changing root `r` leaves alone what every node not reached from `r`
      denotes. */
  lemma {:induction false} EvalAway(kinds: seq<Kind>, cache: seq<Value>, dirty: seq<bool>, deps: seq<seq<nat>>,
                                    r: nat, v: Value, m: nat)
    requires WellFormed(kinds, cache, dirty, deps) && r < |kinds| && m < |kinds| && m != r
    requires Forward(deps) && !Reach(deps, r, m)
    ensures Eval(kinds, cache[r := v], m) == Eval(kinds, cache, m)
    decreases m
  {
    if !kinds[m].IsRoot() {
      var s := kinds[m].Source();
      ReachFromSource(kinds, cache, dirty, deps, m);
      if Reach(deps, r, s) {
        ReachExtend(deps, r, s, m);
      }
      EvalAway(kinds, cache, dirty, deps, r, v, s);
    }
  }

  /** Under coherence a lazy read returns exactly what the node denotes. */
  lemma {:induction false} PullIsEval(kinds: seq<Kind>, cache: seq<Value>, dirty: seq<bool>, deps: seq<seq<nat>>, n: nat)
    requires WellFormed(kinds, cache, dirty, deps) && Coherent(kinds, cache, dirty) && n < |kinds|
    ensures Pull(kinds, cache, dirty, n) == Eval(kinds, cache, n)
    decreases n
  {
    if !kinds[n].IsRoot() && dirty[n] && kinds[n].MapNode? {
      PullIsEval(kinds, cache, dirty, deps, kinds[n].source);
    }
  }

  /** Writing root `r` and then pushing from `r` keeps the graph coherent. */
  lemma MarkedCoherent(kinds: seq<Kind>, cache: seq<Value>, dirty: seq<bool>, deps: seq<seq<nat>>, r: nat, v: Value)
    requires WellFormed(kinds, cache, dirty, deps) && Coherent(kinds, cache, dirty)
    requires r < |kinds| && kinds[r].IsRoot()
    ensures Forward(deps)
    ensures Coherent(kinds, cache[r := v], Marked(deps, dirty, r))
  {
    WellFormedForward(kinds, cache, dirty, deps);
    var cache', dirty' := cache[r := v], Marked(deps, dirty, r);
    forall n | 0 <= n < |kinds| && !dirty'[n]
      ensures cache'[n] == Eval(kinds, cache', n)
    {
      if n != r {
        EvalAway(kinds, cache, dirty, deps, r, v, n);
      }
    }
    forall n | 0 <= n < |kinds| && !dirty'[n] && !kinds[n].IsRoot()
      ensures !dirty'[kinds[n].Source()]
    {
      var s := kinds[n].Source();
      if Reach(deps, r, s) {
        ReachFromSource(kinds, cache, dirty, deps, n);
        ReachExtend(deps, r, s, n);
      }
    }
  }

  /** Caching a derived node's denotation and cleaning it keeps the graph
      coherent, provided its source is clean. */
  lemma SettleCoherent(kinds: seq<Kind>, cache: seq<Value>, dirty: seq<bool>, n: nat, v: Value)
    requires Sized(kinds, cache, dirty) && Coherent(kinds, cache, dirty)
    requires n < |kinds| && !kinds[n].IsRoot() && !dirty[kinds[n].Source()]
    requires v == Eval(kinds, cache, n)
    ensures Coherent(kinds, cache[n := v], dirty[n := false])
  {
    var cache', dirty' := cache[n := v], dirty[n := false];
    forall m | 0 <= m < |kinds| ensures Eval(kinds, cache', m) == Eval(kinds, cache, m) {
      EvalRoots(kinds, cache, cache', m);
    }
  }

  /** Settling dirty map node `n` after reading its source: if the source's
      read had its effect, then caching `pred` of what the source read
      returned at `n` and clearing `n`'s flag is the effect of reading `n`. */
  lemma SettleRead(kinds: seq<Kind>, cache: seq<Value>, dirty: seq<bool>,
                   cache': seq<Value>, dirty': seq<bool>, n: nat, v: Value)
    requires Sized(kinds, cache, dirty) && |cache'| == |dirty'| == |kinds|
    requires n < |kinds| && kinds[n].MapNode? && dirty[n]
    requires ReadEffect(kinds, cache, dirty, cache', dirty', kinds[n].source)
    requires v == kinds[n].pred(Pull(kinds, cache, dirty, kinds[n].source))
    ensures ReadEffect(kinds, cache, dirty, cache'[n := v], dirty'[n := false], n)
  {
    var s := kinds[n].source;
    assert Visited(kinds, dirty, n) == {n} + Visited(kinds, dirty, s);
  }

  /** Every node a read of `n` visits is `n` or one `n` is reached from: a
      read only walks up the source chain. */
  lemma {:induction false} VisitedReached(kinds: seq<Kind>, cache: seq<Value>, dirty: seq<bool>,
                                          deps: seq<seq<nat>>, n: nat, m: nat)
    requires WellFormed(kinds, cache, dirty, deps) && n < |kinds|
    requires m in Visited(kinds, dirty, n)
    ensures Forward(deps) && (m == n || Reach(deps, m, n))
    decreases n
  {
    WellFormedForward(kinds, cache, dirty, deps);
    if m != n {
      var s := kinds[n].source;
      ReachFromSource(kinds, cache, dirty, deps, n);
      if m != s {
        VisitedReached(kinds, cache, dirty, deps, s, m);
        ReachExtend(deps, m, s, n);
      }
    }
  }

  /** Caching a value in a derived node and cleaning it keeps the arena
      well formed. */
  lemma SettleWellFormed(kinds: seq<Kind>, cache: seq<Value>, dirty: seq<bool>, deps: seq<seq<nat>>, n: nat, v: Value)
    requires WellFormed(kinds, cache, dirty, deps) && n < |kinds| && !kinds[n].IsRoot()
    ensures WellFormed(kinds, cache[n := v], dirty[n := false], deps)
  {
  }

  /** Appending a derived node of source `s` that lists no dependents, and
      registering it with `s`, keeps the arena well formed. */
  lemma AppendDerivedWellFormed(kinds: seq<Kind>, cache: seq<Value>, dirty: seq<bool>, deps: seq<seq<nat>>,
                                kind: Kind, v: Value, d: bool)
    requires WellFormed(kinds, cache, dirty, deps)
    requires !kind.IsRoot() && kind.Source() < |kinds|
    requires kind.AccessNode? ==> kinds[kind.list].ListNode?
    ensures var s, n := kind.Source(), |kinds|;
            WellFormed(kinds + [kind], cache + [v], dirty + [d], deps[s := deps[s] + [n]] + [[]])
  {
    var s, n := kind.Source(), |kinds|;
    var kinds', deps' := kinds + [kind], deps[s := deps[s] + [n]] + [[]];
    forall m | 0 <= m < |kinds'| && !kinds'[m].IsRoot() ensures m in deps'[kinds'[m].Source()] {
      if m < n {
        assert m in deps[kinds[m].Source()];
      } else {
        assert deps'[s][|deps[s]|] == m;
      }
    }
  }

  /** Eval of the existing nodes is unaffected by appending a node. */
  lemma {:induction false} EvalAppend(kinds: seq<Kind>, cache: seq<Value>, kind: Kind, v: Value, n: nat)
    requires Ordered(kinds) && Ordered(kinds + [kind]) && |cache| == |kinds| && n < |kinds|
    ensures Eval(kinds + [kind], cache + [v], n) == Eval(kinds, cache, n)
    decreases n
  {
    assert (kinds + [kind])[n] == kinds[n];
    if !kinds[n].IsRoot() {
      EvalAppend(kinds, cache, kind, v, kinds[n].Source());
    }
  }

  /** Appending a node that is dirty, or clean with its denotation cached and
      a clean source, keeps the graph coherent. */
  lemma AppendCoherent(kinds: seq<Kind>, cache: seq<Value>, dirty: seq<bool>, kind: Kind, v: Value, d: bool)
    requires Sized(kinds, cache, dirty) && Coherent(kinds, cache, dirty)
    requires Ordered(kinds + [kind])
    requires !d ==> v == Eval(kinds + [kind], cache + [v], |kinds|)
    requires !d && !kind.IsRoot() ==> !dirty[kind.Source()]
    ensures Sized(kinds + [kind], cache + [v], dirty + [d])
    ensures Coherent(kinds + [kind], cache + [v], dirty + [d])
  {
    var kinds', cache', dirty' := kinds + [kind], cache + [v], dirty + [d];
    forall n | 0 <= n < |kinds'| && !dirty'[n] ensures cache'[n] == Eval(kinds', cache', n) {
      if n < |kinds| {
        EvalAppend(kinds, cache, kind, v, n);
      }
    }
  }

  /** After `set(i, x)` on list `l` and the push that follows it, every
      accessor bound to index `i` reads `x`, whatever the graph held before. */
  lemma AccessAfterSet(kinds: seq<Kind>, cache: seq<Value>, dirty: seq<bool>, deps: seq<seq<nat>>,
                       l: nat, i: nat, x: Value, a: nat)
    requires WellFormed(kinds, cache, dirty, deps) && l < |kinds| && kinds[l].ListNode?
    requires a < |kinds| && kinds[a].AccessNode? && kinds[a].list == l && kinds[a].index == i
    ensures Forward(deps)
    ensures Pull(kinds, cache[l := Arr(Write(cache[l].elems, i, x))], Marked(deps, dirty, l), a) == x
  {
    ReachFromSource(kinds, cache, dirty, deps, a);
    WriteSpec(cache[l].elems, i, x);
  }

  /** Inserting into list `l` without a push leaves a clean accessor of `l`
      returning its old cache; when the insertion moved the element at the
      accessor's index, that cache is no longer what the accessor denotes. */
  lemma SpliceLeavesAccessorStale(kinds: seq<Kind>, cache: seq<Value>, dirty: seq<bool>, deps: seq<seq<nat>>,
                                  l: nat, start: int, x: Value, a: nat)
    requires WellFormed(kinds, cache, dirty, deps) && Coherent(kinds, cache, dirty)
    requires l < |kinds| && kinds[l].ListNode?
    requires a < |kinds| && kinds[a].AccessNode? && kinds[a].list == l && !dirty[a]
    requires var xs := cache[l].elems;
             At(Arr(Insert(xs, SpliceStart(|xs|, start), x)), kinds[a].index) != At(Arr(xs), kinds[a].index)
    ensures var cache' := cache[l := Arr(Insert(cache[l].elems, SpliceStart(|cache[l].elems|, start), x))];
            && Pull(kinds, cache', dirty, a) == Pull(kinds, cache, dirty, a)
            && Pull(kinds, cache', dirty, a) != Eval(kinds, cache', a)
            && !Coherent(kinds, cache', dirty)
  {
    var xs := cache[l].elems;
    var cache' := cache[l := Arr(Insert(xs, SpliceStart(|xs|, start), x))];
    assert Eval(kinds, cache', l) == cache'[l];
    assert Eval(kinds, cache, l) == cache[l];
  }
}
