/** List-building loops in the form the services use them: filter, and collect until an error. */
module Lists {
  import opened Text

  function Filter<T>(s: seq<T>, keep: T -> bool): seq<T> {
    if s == [] then []
    else Filter(s[..|s| - 1], keep) + if keep(s[|s| - 1]) then [s[|s| - 1]] else []
  }

  lemma {:induction false} FilterMembers<T>(s: seq<T>, keep: T -> bool)
    ensures forall x :: x in Filter(s, keep) <==> x in s && keep(x)
    ensures forall x :: multiset(Filter(s, keep))[x] == if keep(x) then multiset(s)[x] else 0
  {
    if s != [] {
      FilterMembers(s[..|s| - 1], keep);
      assert s == s[..|s| - 1] + [s[|s| - 1]];
    }
  }

  lemma {:induction false} FilterAt<T>(s: seq<T>, keep: T -> bool, k: nat)
    requires k < |Filter(s, keep)|
    ensures Filter(s, keep)[k] in s && keep(Filter(s, keep)[k])
  {
    var front := s[..|s| - 1];
    if k < |Filter(front, keep)| {
      FilterAt(front, keep, k);
      assert Filter(s, keep)[k] == Filter(front, keep)[k];
    }
    assert s == front + [s[|s| - 1]];
  }

  lemma {:induction false} FilterAll<T>(s: seq<T>, keep: T -> bool)
    requires forall x | x in s :: keep(x)
    ensures Filter(s, keep) == s
  {
    if s != [] {
      FilterAll(s[..|s| - 1], keep);
      assert s == s[..|s| - 1] + [s[|s| - 1]];
    }
  }

  lemma FilterStep<T>(s: seq<T>, i: nat, keep: T -> bool)
    requires i < |s|
    ensures Filter(s[..i + 1], keep) == Filter(s[..i], keep) + if keep(s[i]) then [s[i]] else []
  {
    assert s[..i + 1][..i] == s[..i];
  }

  lemma FilterAppend<T>(s: seq<T>, x: T, keep: T -> bool)
    ensures Filter(s + [x], keep) == Filter(s, keep) + if keep(x) then [x] else []
  {
    assert (s + [x])[..|s|] == s;
  }

  lemma {:induction false} FilterConcat<T>(a: seq<T>, b: seq<T>, keep: T -> bool)
    ensures Filter(a + b, keep) == Filter(a, keep) + Filter(b, keep)
  {
    if b == [] {
      assert a + b == a;
    } else {
      var n := |b| - 1;
      FilterConcat(a, b[..n], keep);
      assert a + b == (a + b[..n]) + [b[n]];
      FilterAppend(a + b[..n], b[n], keep);
    }
  }

  /** A part whose values all pass is kept in full. */
  lemma FilterKeepsPart<T>(a: seq<T>, b: seq<T>, keep: T -> bool)
    ensures (forall x | x in a :: keep(x)) ==> |Filter(a + b, keep)| >= |a|
    ensures (forall x | x in b :: keep(x)) ==> |Filter(a + b, keep)| >= |b|
  {
    FilterConcat(a, b, keep);
    if forall x | x in a :: keep(x) {
      FilterAll(a, keep);
    }
    if forall x | x in b :: keep(x) {
      FilterAll(b, keep);
    }
  }

  function FlatMap<A, B>(items: seq<A>, f: A -> seq<B>): seq<B> {
    if items == [] then [] else FlatMap(items[..|items| - 1], f) + f(items[|items| - 1])
  }

  lemma FlatMapOne<A, B>(items: seq<A>, x: A, f: A -> seq<B>)
    ensures FlatMap(items + [x], f) == FlatMap(items, f) + f(x)
  {
    assert (items + [x])[..|items|] == items;
  }

  lemma FlatMapOneMore<A, B>(a: seq<A>, front: seq<A>, x: A, f: A -> seq<B>)
    requires FlatMap(a + front, f) == FlatMap(a, f) + FlatMap(front, f)
    ensures FlatMap(a + front + [x], f) == FlatMap(a, f) + FlatMap(front + [x], f)
  {
    FlatMapOne(a + front, x, f);
    FlatMapOne(front, x, f);
  }

  lemma {:induction false} FlatMapConcat<A, B>(a: seq<A>, b: seq<A>, f: A -> seq<B>)
    ensures FlatMap(a + b, f) == FlatMap(a, f) + FlatMap(b, f)
  {
    if b == [] {
      assert a + b == a;
    } else {
      var front, x := b[..|b| - 1], b[|b| - 1];
      assert b == front + [x] && a + b == a + front + [x];
      FlatMapConcat(a, front, f);
      FlatMapOneMore(a, front, x, f);
    }
  }

  /** Each item is dropped, turned into a result, or stops the loop with its error. */
  function Collect<A, B>(items: seq<A>, step: A -> Result<Option<B>>): Result<seq<B>> {
    if items == [] then Ok([])
    else
      match Collect(items[..|items| - 1], step)
      case Err(e) => Err(e)
      case Ok(rs) =>
        match step(items[|items| - 1])
        case Err(e) => Err(e)
        case Ok(None) => Ok(rs)
        case Ok(Some(r)) => Ok(rs + [r])
  }

  lemma {:induction false} CollectStopsAtError<A, B>(items: seq<A>, step: A -> Result<Option<B>>, i: nat)
    requires i <= |items| && Collect(items[..i], step).Err?
    ensures Collect(items, step) == Collect(items[..i], step)
  {
    if i < |items| {
      assert items[..|items| - 1][..i] == items[..i];
      CollectStopsAtError(items[..|items| - 1], step, i);
    } else {
      assert items[..i] == items;
    }
  }

  /** The loop with an early exit computes Collect. */
  method CollectLoop<A, B>(items: seq<A>, step: A -> Result<Option<B>>) returns (r: Result<seq<B>>)
    ensures r == Collect(items, step)
  {
    var parsed: seq<B> := [];
    for i := 0 to |items|
      invariant Collect(items[..i], step) == Ok(parsed)
    {
      assert items[..i + 1][..i] == items[..i];
      match step(items[i]) {
        case Err(e) =>
          CollectStopsAtError(items, step, i + 1);
          return Err(e);
        case Ok(None) =>
        case Ok(Some(b)) =>
          parsed := parsed + [b];
      }
    }
    assert items[..|items|] == items;
    r := Ok(parsed);
  }

  /** Every item must parse. */
  function ParseAll<A, B>(items: seq<A>, parse: A -> Result<B>): Result<seq<B>> {
    if items == [] then Ok([])
    else
      match (ParseAll(items[..|items| - 1], parse), parse(items[|items| - 1]))
      case (Ok(rs), Ok(r)) => Ok(rs + [r])
      case (Err(e), _) => Err(e)
      case (_, Err(e)) => Err(e)
  }

  lemma ParseAppended<A, B>(items: seq<A>, item: A, rs: seq<B>, r: B, parse: A -> Result<B>)
    ensures ParseAll(items + [item], parse) == Ok(rs + [r]) <==>
      ParseAll(items, parse) == Ok(rs) && parse(item) == Ok(r)
  {
    var all := items + [item];
    assert all[..|all| - 1] == items;
    match (ParseAll(items, parse), parse(item))
    case (Ok(ws), Ok(w)) =>
      if ws + [w] == rs + [r] {
        assert (ws + [w])[|ws|] == w && |ws| == |rs|;
        assert ws == (ws + [w])[..|ws|] == (rs + [r])[..|rs|] == rs;
      }
    case _ =>
  }

  /** Storing and reading back: if every stored item steps to something that parses to its source
      exactly when the source is good, the list comes back exactly when every kept source is good. */
  lemma {:induction false} CollectThenParse<S, A, B>(
      sources: seq<S>, items: seq<A>, step: A -> Result<Option<B>>, parse: B -> Result<S>,
      keep: S -> bool, good: S -> bool)
    requires |items| == |sources|
    requires forall k | 0 <= k < |sources| && !keep(sources[k]) :: step(items[k]) == Ok(None)
    requires forall k | 0 <= k < |sources| && keep(sources[k]) ::
      && step(items[k]).Ok? && step(items[k]).value.Some?
      && (parse(step(items[k]).value.value) == Ok(sources[k]) <==> good(sources[k]))
    ensures Collect(items, step).Ok?
    ensures ParseAll(Collect(items, step).value, parse) == Ok(Filter(sources, keep)) <==>
      forall k | 0 <= k < |sources| && keep(sources[k]) :: good(sources[k])
  {
    if sources != [] {
      var n := |sources| - 1;
      CollectThenParse(sources[..n], items[..n], step, parse, keep, good);
      assert forall k | 0 <= k < n :: sources[..n][k] == sources[k];
      assert (forall k | 0 <= k < |sources| && keep(sources[k]) :: good(sources[k])) <==>
        (forall k | 0 <= k < n && keep(sources[..n][k]) :: good(sources[..n][k])) && (keep(sources[n]) ==> good(sources[n]));
      var before := Collect(items[..n], step).value;
      if keep(sources[n]) {
        var b := step(items[n]).value.value;
        assert Collect(items, step) == Ok(before + [b]);
        assert Filter(sources, keep) == Filter(sources[..n], keep) + [sources[n]];
        ParseAppended(before, b, Filter(sources[..n], keep), sources[n], parse);
      } else {
        assert Collect(items, step) == Ok(before);
        assert Filter(sources, keep) == Filter(sources[..n], keep);
      }
    }
  }
}
