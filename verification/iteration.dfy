/**
 Iter: call a visitor on every (key, payload) pair of the store until the
 visitor reports an error. The visitor's own effects are threaded through an
 explicit state of type A; the order in which the runtime enumerates the map
 is a parameter; the stopping error is not returned; the store is only read.
 */
module Iteration {
  import opened Oracles
  import opened JsonDb

  /** What one visitor call did: the visitor's state afterwards and whether
      it returned an error. */
  datatype Visit<A> = Visit(state: A, failed: bool)

  /** The visitor's final state and the keys it was called on, in call order. */
  datatype Walked<A> = Walked(state: A, visited: seq<string>)

  /** Every key listed is a key of m. */
  predicate Within(keys: seq<string>, m: map<string, Bytes>) {
    forall i :: 0 <= i < |keys| ==> keys[i] in m
  }

  /** order lists every key of m exactly once: the contract of map
      iteration when the map is not changed during the loop. */
  predicate Enumerates(order: seq<string>, m: map<string, Bytes>) {
    && Within(order, m)
    && (forall k :: k in m ==> k in order)
    && (forall i, j :: 0 <= i < j < |order| ==> order[i] != order[j])
  }

  /** Reference walk: visit keys from the front, stopping right after the
      first call that reports an error. */
  function Walk<A>(m: map<string, Bytes>, keys: seq<string>,
                   visit: (A, string, Bytes) -> Visit<A>, st: A): Walked<A>
    requires Within(keys, m)
    decreases |keys|
  {
    if keys == [] then Walked(st, [])
    else
      var v := visit(st, keys[0], m[keys[0]]);
      if v.failed then Walked(v.state, [keys[0]])
      else
        var w := Walk(m, keys[1..], visit, v.state);
        Walked(w.state, [keys[0]] + w.visited)
  }

  /** The visitor's state after the first n calls of an uninterrupted walk. */
  function StateAfter<A>(m: map<string, Bytes>, keys: seq<string>,
                         visit: (A, string, Bytes) -> Visit<A>, st: A, n: nat): A
    requires Within(keys, m) && n <= |keys|
    decreases n
  {
    if n == 0 then st
    else StateAfter(m, keys[1..], visit, visit(st, keys[0], m[keys[0]]).state, n - 1)
  }

  /** The visitor call made on the i-th key of an uninterrupted walk. */
  function CallAt<A>(m: map<string, Bytes>, keys: seq<string>,
                     visit: (A, string, Bytes) -> Visit<A>, st: A, i: nat): Visit<A>
    requires Within(keys, m) && i < |keys|
  {
    visit(StateAfter(m, keys, visit, st, i), keys[i], m[keys[i]])
  }

  /** The Go `Iter` loop. Returns the visitor's final state and the keys it
      was called on. */
  method Iter<A>(s: Store, order: seq<string>, visit: (A, string, Bytes) -> Visit<A>, st0: A)
    returns (st: A, visited: seq<string>)
    requires Enumerates(order, s.data)
    ensures Walked(st, visited) == Walk(s.data, order, visit, st0)
  {
    st := st0;
    visited := [];
    var stop := false;
    var i := 0;
    while i < |order| && !stop
      invariant 0 <= i <= |order|
      invariant Within(order[i..], s.data)
      invariant !stop ==>
        Walk(s.data, order, visit, st0) ==
        Walked(Walk(s.data, order[i..], visit, st).state,
               visited + Walk(s.data, order[i..], visit, st).visited)
      invariant stop ==> Walk(s.data, order, visit, st0) == Walked(st, visited)
      decreases |order| - i
    {
      var v := visit(st, order[i], s.data[order[i]]);
      assert order[i..][0] == order[i] && order[i..][1..] == order[i + 1..];
      st := v.state;
      visited := visited + [order[i]];
      i := i + 1;
      stop := v.failed;
    }
    if !stop {
      assert order[i..] == [];
    }
  }

  /** A walk calls the visitor on a prefix of the keys. */
  lemma {:induction false} WalkVisitsPrefix<A>(m: map<string, Bytes>, keys: seq<string>,
                                               visit: (A, string, Bytes) -> Visit<A>, st: A)
    requires Within(keys, m)
    ensures Walk(m, keys, visit, st).visited <= keys
    decreases |keys|
  {
    if keys != [] && !visit(st, keys[0], m[keys[0]]).failed {
      WalkVisitsPrefix(m, keys[1..], visit, visit(st, keys[0], m[keys[0]]).state);
    }
  }

  /** One step of an uninterrupted walk: the calls after the first are the
      calls of the walk over the remaining keys from the first call's state. */
  lemma CallAtShift<A>(m: map<string, Bytes>, keys: seq<string>,
                       visit: (A, string, Bytes) -> Visit<A>, st: A, i: nat)
    requires Within(keys, m) && 0 < i < |keys|
    ensures CallAt(m, keys, visit, st, i)
      == CallAt(m, keys[1..], visit, visit(st, keys[0], m[keys[0]]).state, i - 1)
  {
    assert keys[1..][i - 1] == keys[i];
  }

  /** The walk stops right after the first call that reports an error:
      every call before the last succeeded, the walk ends before the last key
      only after a failed call, and the final state is the state after
      exactly the calls made. */
  lemma {:induction false} WalkStopsAtFirstError<A>(m: map<string, Bytes>, keys: seq<string>,
                                                    visit: (A, string, Bytes) -> Visit<A>, st: A)
    requires Within(keys, m)
    ensures |Walk(m, keys, visit, st).visited| <= |keys|
    ensures forall i :: 0 <= i < |Walk(m, keys, visit, st).visited| - 1 ==>
      !CallAt(m, keys, visit, st, i).failed
    ensures |Walk(m, keys, visit, st).visited| < |keys| ==>
      |Walk(m, keys, visit, st).visited| > 0 &&
      CallAt(m, keys, visit, st, |Walk(m, keys, visit, st).visited| - 1).failed
    ensures Walk(m, keys, visit, st).state ==
      StateAfter(m, keys, visit, st, |Walk(m, keys, visit, st).visited|)
    decreases |keys|
  {
    if keys != [] {
      var v := visit(st, keys[0], m[keys[0]]);
      if !v.failed {
        var rest := keys[1..];
        WalkStopsAtFirstError(m, rest, visit, v.state);
        var w := Walk(m, rest, visit, v.state);
        assert Walk(m, keys, visit, st) == Walked(w.state, [keys[0]] + w.visited);
        forall i | 0 < i < |keys|
          ensures CallAt(m, keys, visit, st, i) == CallAt(m, rest, visit, v.state, i - 1)
        {
          CallAtShift(m, keys, visit, st, i);
        }
      }
    }
  }

  /** When no call reports an error, every key is visited, in order. */
  lemma WalkVisitsAllWithoutError<A>(m: map<string, Bytes>, keys: seq<string>,
                                     visit: (A, string, Bytes) -> Visit<A>, st: A)
    requires Within(keys, m)
    requires forall i :: 0 <= i < |keys| ==> !CallAt(m, keys, visit, st, i).failed
    ensures Walk(m, keys, visit, st).visited == keys
  {
    WalkVisitsPrefix(m, keys, visit, st);
    WalkStopsAtFirstError(m, keys, visit, st);
  }

  /** Over an enumeration of the store, the visitor is called on distinct
      keys of the map. */
  lemma WalkCallsDistinctKeys<A>(m: map<string, Bytes>, order: seq<string>,
                                 visit: (A, string, Bytes) -> Visit<A>, st: A)
    requires Enumerates(order, m)
    ensures forall i :: 0 <= i < |Walk(m, order, visit, st).visited| ==>
      Walk(m, order, visit, st).visited[i] in m
    ensures forall i, j :: 0 <= i < j < |Walk(m, order, visit, st).visited| ==>
      Walk(m, order, visit, st).visited[i] != Walk(m, order, visit, st).visited[j]
  {
    WalkVisitsPrefix(m, order, visit, st);
  }

  /** Over an enumeration of the store, a walk in which no call reports an
      error visits every entry of the map. */
  lemma WalkCoversStore<A>(m: map<string, Bytes>, order: seq<string>,
                           visit: (A, string, Bytes) -> Visit<A>, st: A)
    requires Enumerates(order, m)
    requires forall i :: 0 <= i < |order| ==> !CallAt(m, order, visit, st, i).failed
    ensures forall k :: k in m ==> k in Walk(m, order, visit, st).visited
  {
    WalkVisitsAllWithoutError(m, order, visit, st);
  }
}
