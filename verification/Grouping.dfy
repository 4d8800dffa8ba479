/** Grouping a list by key into rows built left to right, in first-appearance order. */
module Grouping {
  import opened Text
  import opened Lists

  function HasKey<T>(key: string, keyOf: T -> string): T -> bool {
    (v: T) => keyOf(v) == key
  }

  function WithKey<T>(vs: seq<T>, key: string, keyOf: T -> string): seq<T> {
    Filter(vs, HasKey(key, keyOf))
  }

  /** The row that some values build, first to last. */
  function RowOf<T, R>(vs: seq<T>, start: T -> R, add: (R, T) -> R): R
    requires vs != []
  {
    var n := |vs| - 1;
    add(if n == 0 then start(vs[0]) else RowOf(vs[..n], start, add), vs[n])
  }

  /** The keys in the order in which they first appear. */
  function FirstKeys<T>(vs: seq<T>, keyOf: T -> string): seq<string> {
    if vs == [] then []
    else
      var before := FirstKeys(vs[..|vs| - 1], keyOf);
      var key := keyOf(vs[|vs| - 1]);
      if key in before then before else before + [key]
  }

  /** What a row map must say of one key. */
  ghost predicate RowFits<T, R>(
      vs: seq<T>, k: string, rows: map<string, R>, keyOf: T -> string, start: T -> R, add: (R, T) -> R)
  {
    var mine := WithKey(vs, k, keyOf);
    (k in rows <==> mine != []) && (k in rows && mine != [] ==> rows[k] == RowOf(mine, start, add))
  }

  /** One row per key, in first-appearance order, each built from the values of its key alone. */
  ghost predicate Grouped<T, R>(
      vs: seq<T>, order: seq<string>, rows: map<string, R>, keyOf: T -> string, start: T -> R, add: (R, T) -> R)
  {
    && order == FirstKeys(vs, keyOf)
    && (forall i, j | 0 <= i < j < |order| :: order[i] != order[j])
    && (forall k :: k in rows <==> k in order)
    && (forall k :: RowFits(vs, k, rows, keyOf, start, add))
  }

  lemma WithKeyAppended<T>(vs: seq<T>, v: T, key: string, keyOf: T -> string)
    ensures WithKey(vs + [v], key, keyOf) == WithKey(vs, key, keyOf) + if keyOf(v) == key then [v] else []
  {
    assert (vs + [v])[..|vs|] == vs;
  }

  lemma RowAppended<T, R>(mine: seq<T>, v: T, start: T -> R, add: (R, T) -> R)
    ensures RowOf(mine + [v], start, add) == add(if mine == [] then start(v) else RowOf(mine, start, add), v)
  {
    assert (mine + [v])[..|mine|] == mine;
  }

  lemma RowAfter<T, R(!new)>(
      vs: seq<T>, v: T, k: string, rows: map<string, R>, keyOf: T -> string, start: T -> R, add: (R, T) -> R)
    requires RowFits(vs, k, rows, keyOf, start, add)
    ensures var key := keyOf(v);
      RowFits(vs + [v], k, rows[key := add(if key in rows then rows[key] else start(v), v)], keyOf, start, add)
  {
    var mine := WithKey(vs, k, keyOf);
    WithKeyAppended(vs, v, k, keyOf);
    RowAppended(mine, v, start, add);
    if k != keyOf(v) {
      assert mine + [] == mine;
    }
  }

  lemma GroupOneMore<T, R(!new)>(
      vs: seq<T>, v: T, order: seq<string>, rows: map<string, R>, keyOf: T -> string, start: T -> R, add: (R, T) -> R)
    requires Grouped(vs, order, rows, keyOf, start, add)
    ensures var key := keyOf(v);
      var row := if key in rows then rows[key] else start(v);
      Grouped(vs + [v], if key in rows then order else order + [key], rows[key := add(row, v)], keyOf, start, add)
  {
    var key := keyOf(v);
    var after := rows[key := add(if key in rows then rows[key] else start(v), v)];
    assert (vs + [v])[..|vs|] == vs;
    forall k ensures RowFits(vs + [v], k, after, keyOf, start, add) {
      RowAfter(vs, v, k, rows, keyOf, start, add);
    }
  }

  /** The values that share a value's key start with one of the list. */
  lemma FirstWithKey<T>(vs: seq<T>, v: T, keyOf: T -> string)
    requires v in vs
    ensures var mine := WithKey(vs, keyOf(v), keyOf);
      mine != [] && mine[0] in vs && keyOf(mine[0]) == keyOf(v)
  {
    var keep := HasKey(keyOf(v), keyOf);
    FilterMembers(vs, keep);
    assert v in Filter(vs, keep);
    FilterAt(vs, keep, 0);
  }

  /** The last value that passes a test. */
  function Latest<T>(vs: seq<T>, test: T -> bool): Option<T> {
    if vs == [] then None else if test(vs[|vs| - 1]) then Some(vs[|vs| - 1]) else Latest(vs[..|vs| - 1], test)
  }

  /** The latest is at some position, and none behind it passes. */
  lemma {:induction false} LatestPosition<T>(vs: seq<T>, test: T -> bool) returns (i: nat)
    ensures Latest(vs, test).Some? <==> exists k | 0 <= k < |vs| :: test(vs[k])
    ensures Latest(vs, test).Some? ==> i < |vs| && Latest(vs, test).value == vs[i] && test(vs[i])
    ensures Latest(vs, test).Some? ==> forall k | i < k < |vs| :: !test(vs[k])
  {
    i := 0;
    if vs != [] {
      var n := |vs| - 1;
      if test(vs[n]) {
        i := n;
      } else {
        i := LatestPosition(vs[..n], test);
        assert forall k | 0 <= k < n :: vs[..n][k] == vs[k];
      }
    }
  }

  /** The latest of some values within those of one key is the latest of that key. */
  lemma {:induction false} LatestWithKey<T>(vs: seq<T>, key: string, keyOf: T -> string, test: T -> bool, both: T -> bool)
    requires forall v | v in vs :: both(v) <==> keyOf(v) == key && test(v)
    ensures Latest(WithKey(vs, key, keyOf), test) == Latest(vs, both)
  {
    if vs != [] {
      var front, v := vs[..|vs| - 1], vs[|vs| - 1];
      assert v in vs && vs == front + [v];
      LatestWithKey(front, key, keyOf, test, both);
      WithKeyAppended(front, v, key, keyOf);
      var mine := WithKey(front, key, keyOf);
      if keyOf(v) == key {
        assert (mine + [v])[..|mine|] == mine;
      } else {
        assert mine + [] == mine;
      }
    }
  }
}
