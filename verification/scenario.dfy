/** Client programs of the graph: the counter app of `index.ts`, the staleness
    `splice` leaves behind, and reads repeated without a write between them. */
module Scenario {
  import opened Values
  import opened Semantics
  import opened Signal

  /** `x => \`Counter: ${x}\`` */
  function CounterText(x: Value): Value
  {
    Str("Counter: " + Show(x))
  }

  /** `String.prototype.toUpperCase` applied to the value. */
  function UpperCase(x: Value): Value
  {
    Str(UpperText(Show(x)))
  }

  /** The app of `index.ts`: a counter at 0, its text, the upper-cased text;
      after setting the counter to 10 the last node reads "COUNTER: 10". */
  method CounterApp() returns (text: Value)
    ensures text == Str("COUNTER: 10")
  {
    var g := new Graph();
    var count := g.NewState(Num(0));
    var countText := g.Map(count, CounterText);
    var countTextUpper := g.Map(countText, UpperCase);
    g.Set(count, Num(10));
    assert g.kinds[countTextUpper] == MapNode(countText, UpperCase);
    assert g.kinds[countText] == MapNode(count, CounterText);
    assert g.kinds[count] == MutableNode && g.cache[count] == Num(10);
    text := g.Value(countTextUpper);
    CounterTextUpper();
  }

  lemma CounterTextUpper()
    ensures UpperCase(CounterText(Num(10))) == Str("COUNTER: 10")
  {
    assert NumberText(10) == "10";
  }

  /** A list [1, 2] with an accessor at index 0 that has been read once:
      after `splice(0, 9)` the accessor still reads 1 while `uget(0)` is 9;
      with the notifying insertion it reads 9. */
  method SpliceStaleness() returns (before: Value, stale: Value, element: Value, notified: Value)
    ensures before == Num(1) && stale == Num(1) && element == Num(9)
    ensures notified == Num(9)
  {
    var g := new Graph();
    var list := g.NewList([Num(1), Num(2)]);
    var first := g.Get(list, 0);
    before := g.Value(first);
    g.Splice(list, 0, Num(9));
    stale := g.Value(first);
    element := g.UGet(list, 0);
    notified := NotifiedRead();
  }

  /** The same list and accessor with the notifying insertion: the accessor
      reads 9 afterwards. */
  method NotifiedRead() returns (notified: Value)
    ensures notified == Num(9)
  {
    var g := new Graph();
    var list := g.NewList([Num(1), Num(2)]);
    var first := g.Get(list, 0);
    var _ := g.Value(first);
    g.SpliceAndNotify(list, 0, Num(9));
    notified := g.Value(first);
  }

  /** `x => x` */
  function Identity(x: Value): Value
  {
    x
  }

  /** After `splice` the graph is no longer coherent, and a map node over a
      stale accessor keeps reading the stale element: on the graph
      `StaleSetup` builds, `m.map(x => x)` reads `m` eagerly, which cleans it
      from `a`'s stale cache. `m` then reads 1 while `uget(0)` is 9. */
  method StaleMapAfterSplice() returns (read: Value, element: Value)
    ensures read == Num(1) && element == Num(9)
  {
    var g, list, a, m := StaleSetup();
    var _ := g.Map(m, Identity);
    assert g.cache[a] == Num(1) && !g.dirty[a] && (!g.dirty[m] ==> g.cache[m] == Num(1));
    read := g.Value(m);
    element := g.UGet(list, 0);
  }

  /** From the graph `StaleStart` builds: `set(1, 5)`, `a` read again (which
      leaves `m` dirty), `splice(0, 9)`. Then `a` is clean and caches 1, `m`
      caches 1 whenever it is clean, and the list's element 0 is 9. */
  method StaleSetup() returns (g: Graph, list: nat, a: nat, m: nat)
    ensures fresh(g) && g.Valid() && m < |g.kinds| && list < |g.kinds|
    ensures g.kinds[m] == MapNode(a, Identity) && g.kinds[a] == AccessNode(list, 0)
    ensures g.cache[a] == Num(1) && !g.dirty[a] && (!g.dirty[m] ==> g.cache[m] == Num(1))
    ensures At(g.cache[list], 0) == Num(9)
  {
    g, list, a, m := StaleStart();
    g.ListSet(list, 1, Num(5));
    assert At(g.cache[list], 0) == Num(1) && g.cache[a] == Num(1) && g.cache[m] == Num(1);
    var again := g.Value(a);
    assert again == Num(1);
    g.Splice(list, 0, Num(9));
  }

  /** List [1, 2], accessor `a` at 0 read once, `m := a.map(x => x)`: `a`
      and `m` are clean and cache 1. */
  method StaleStart() returns (g: Graph, list: nat, a: nat, m: nat)
    ensures fresh(g) && g.Valid() && m < |g.kinds| && list < |g.kinds|
    ensures g.kinds[m] == MapNode(a, Identity) && g.kinds[a] == AccessNode(list, 0)
    ensures g.cache[a] == Num(1) && !g.dirty[a] && g.cache[m] == Num(1) && !g.dirty[m]
    ensures g.cache[list] == Arr([Num(1), Num(2)])
  {
    g := new Graph();
    list := g.NewList([Num(1), Num(2)]);
    a := g.Get(list, 0);
    var first := g.Value(a);
    assert first == Num(1);
    m := g.Map(a, Identity);
    assert g.kinds[a] == AccessNode(list, 0);
  }

  /** Two reads of the same node with no write between them return the same
      value. */
  method ReadTwice(g: Graph, n: nat) returns (first: Value, second: Value)
    requires g.Valid() && n < |g.kinds|
    modifies g
    ensures first == second
  {
    first := g.Value(n);
    second := g.Value(n);
  }

  /** Reading a dirty map node reads its source, which leaves the source
      clean as well, whether or not the graph is coherent. */
  method ReadCleansSource(g: Graph, n: nat) returns (v: Value)
    requires g.Valid() && n < |g.kinds| && g.kinds[n].MapNode? && g.dirty[n]
    modifies g
    ensures g.Valid() && g.kinds == old(g.kinds)
    ensures !g.dirty[n] && !g.dirty[g.kinds[n].source]
  {
    v := g.Value(n);
  }
}
