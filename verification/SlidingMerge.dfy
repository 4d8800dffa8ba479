/** Folding a list with a merge of neighbours: each element is merged into the last one kept when
    the two are near, and kept on its own otherwise. */
module SlidingMerge {
  import opened Text

  function Append<T>(log: seq<T>, e: T, near: (T, T) -> bool, merge: (T, T) -> T): seq<T> {
    if log != [] && near(log[|log| - 1], e) then log[..|log| - 1] + [merge(log[|log| - 1], e)] else log + [e]
  }

  function AppendAll<T>(log: seq<T>, es: seq<T>, near: (T, T) -> bool, merge: (T, T) -> T): seq<T> {
    if es == [] then log else Append(AppendAll(log, es[..|es| - 1], near, merge), es[|es| - 1], near, merge)
  }

  /** A merged element meets others as its second part would. */
  ghost predicate FacesLikeLast<T(!new)>(near: (T, T) -> bool, merge: (T, T) -> T) {
    forall a, b, x | near(a, b) :: (near(merge(a, b), x) <==> near(b, x)) && (near(x, merge(a, b)) <==> near(x, b))
  }

  /* ---- conservation ---- */

  function Total<T>(es: seq<T>, weight: T -> nat): nat {
    if es == [] then 0 else Total(es[..|es| - 1], weight) + weight(es[|es| - 1])
  }

  ghost predicate Additive<T(!new)>(weight: T -> nat, merge: (T, T) -> T) {
    forall a, b :: weight(merge(a, b)) == weight(a) + weight(b)
  }

  lemma TotalOfLast<T>(es: seq<T>, e: T, weight: T -> nat)
    ensures Total(es + [e], weight) == Total(es, weight) + weight(e)
  {
    assert (es + [e])[..|es|] == es;
  }

  lemma {:induction false} AppendAllConserves<T(!new)>(
      log: seq<T>, es: seq<T>, near: (T, T) -> bool, merge: (T, T) -> T, weight: T -> nat)
    requires Additive(weight, merge)
    ensures Total(AppendAll(log, es, near, merge), weight) == Total(log, weight) + Total(es, weight)
  {
    if es != [] {
      AppendAllConserves(log, es[..|es| - 1], near, merge, weight);
      var l, e := AppendAll(log, es[..|es| - 1], near, merge), es[|es| - 1];
      if l != [] && near(l[|l| - 1], e) {
        TotalOfLast(l[..|l| - 1], merge(l[|l| - 1], e), weight);
      } else {
        TotalOfLast(l, e, weight);
      }
    }
  }

  /* ---- maximal runs ---- */

  function Last<T>(r: seq<T>): T
    requires r != []
  {
    r[|r| - 1]
  }

  function ExtendRuns<T>(rs: seq<seq<T>>, e: T, near: (T, T) -> bool): seq<seq<T>> {
    if rs != [] && Last(rs) != [] && near(Last(Last(rs)), e) then rs[..|rs| - 1] + [Last(rs) + [e]] else rs + [[e]]
  }

  /** The list cut before every element that is not near the one in front of it. */
  function Runs<T>(es: seq<T>, near: (T, T) -> bool): seq<seq<T>> {
    if es == [] then [] else ExtendRuns(Runs(es[..|es| - 1], near), es[|es| - 1], near)
  }

  function Flatten<T>(rs: seq<seq<T>>): seq<T> {
    if rs == [] then [] else Flatten(rs[..|rs| - 1]) + rs[|rs| - 1]
  }

  function MergeRun<T>(r: seq<T>, merge: (T, T) -> T): T
    requires r != []
  {
    if |r| == 1 then r[0] else merge(MergeRun(r[..|r| - 1], merge), r[|r| - 1])
  }

  predicate IsRun<T>(r: seq<T>, near: (T, T) -> bool) {
    r != [] && forall i | 0 <= i < |r| - 1 :: near(r[i], r[i + 1])
  }

  /** Neighbours inside a run are near; the ends of neighbouring runs are not. */
  predicate MaximalRuns<T>(rs: seq<seq<T>>, near: (T, T) -> bool) {
    && (forall k | 0 <= k < |rs| :: IsRun(rs[k], near))
    && (forall k | 0 <= k < |rs| - 1 :: !near(Last(rs[k]), rs[k + 1][0]))
  }

  lemma ExtendKeepsMaximal<T>(rs: seq<seq<T>>, e: T, near: (T, T) -> bool)
    requires MaximalRuns(rs, near)
    ensures var after := ExtendRuns(rs, e, near);
      MaximalRuns(after, near) && after != [] && Last(after) != [] && Last(Last(after)) == e
  {
    var after := ExtendRuns(rs, e, near);
    forall k | 0 <= k < |after| ensures IsRun(after[k], near) {
      if k < |rs| {
        assert IsRun(rs[k], near);
      }
    }
  }

  lemma ExtendFlattens<T>(rs: seq<seq<T>>, e: T, near: (T, T) -> bool)
    ensures Flatten(ExtendRuns(rs, e, near)) == Flatten(rs) + [e]
  {}

  lemma {:induction false} RunsAreMaximal<T>(es: seq<T>, near: (T, T) -> bool)
    ensures MaximalRuns(Runs(es, near), near)
    ensures Flatten(Runs(es, near)) == es
    ensures es != [] ==> Runs(es, near) != [] && Last(Runs(es, near)) != [] && Last(Last(Runs(es, near))) == Last(es)
  {
    if es != [] {
      var n := |es| - 1;
      RunsAreMaximal(es[..n], near);
      ExtendKeepsMaximal(Runs(es[..n], near), es[n], near);
      ExtendFlattens(Runs(es[..n], near), es[n], near);
      assert es == es[..n] + [es[n]];
    }
  }

  lemma {:induction false} RunFacesLikeLast<T(!new)>(r: seq<T>, x: T, near: (T, T) -> bool, merge: (T, T) -> T)
    requires FacesLikeLast(near, merge) && IsRun(r, near)
    ensures near(MergeRun(r, merge), x) <==> near(Last(r), x)
    ensures near(x, MergeRun(r, merge)) <==> near(x, Last(r))
  {
    if |r| > 1 {
      var front := r[..|r| - 1];
      assert near(r[|r| - 2], r[|r| - 1]) && IsRun(front, near);
      RunFacesLikeLast(front, Last(r), near, merge);
    }
  }

  function MergeRuns<T>(rs: seq<seq<T>>, merge: (T, T) -> T): (r: seq<T>)
    requires forall k | 0 <= k < |rs| :: rs[k] != []
    ensures |r| == |rs| && forall k | 0 <= k < |rs| :: r[k] == MergeRun(rs[k], merge)
  {
    seq(|rs|, k requires 0 <= k < |rs| => MergeRun(rs[k], merge))
  }

  lemma ExtendMerges<T(!new)>(rs: seq<seq<T>>, e: T, near: (T, T) -> bool, merge: (T, T) -> T)
    requires FacesLikeLast(near, merge) && MaximalRuns(rs, near) && MaximalRuns(ExtendRuns(rs, e, near), near)
    ensures MergeRuns(ExtendRuns(rs, e, near), merge) == Append(MergeRuns(rs, merge), e, near, merge)
  {
    if rs != [] {
      var r := Last(rs);
      assert IsRun(r, near);
      RunFacesLikeLast(r, e, near, merge);
      assert (r + [e])[..|r|] == r;
      assert Last(MergeRuns(rs, merge)) == MergeRun(r, merge);
    }
  }

  /** The fold merges exactly the maximal runs. */
  lemma {:induction false} FoldMergesMaximalRuns<T(!new)>(es: seq<T>, near: (T, T) -> bool, merge: (T, T) -> T)
    requires FacesLikeLast(near, merge)
    ensures MaximalRuns(Runs(es, near), near)
    ensures AppendAll([], es, near, merge) == MergeRuns(Runs(es, near), merge)
  {
    RunsAreMaximal(es, near);
    if es != [] {
      FoldMergesMaximalRuns(es[..|es| - 1], near, merge);
      ExtendMerges(Runs(es[..|es| - 1], near), es[|es| - 1], near, merge);
    }
  }

  /* ---- folding twice ---- */

  predicate NoneNear<T>(es: seq<T>, near: (T, T) -> bool) {
    forall k | 0 <= k < |es| - 1 :: !near(es[k], es[k + 1])
  }

  lemma {:induction false} FoldLength<T>(es: seq<T>, near: (T, T) -> bool, merge: (T, T) -> T)
    ensures |AppendAll([], es, near, merge)| <= |es|
  {
    if es != [] {
      FoldLength(es[..|es| - 1], near, merge);
    }
  }

  lemma NoneNearStep<T>(front: seq<T>, e: T, near: (T, T) -> bool)
    ensures NoneNear(front + [e], near) <==> NoneNear(front, near) && (front == [] || !near(front[|front| - 1], e))
  {
    var es := front + [e];
    assert forall k | 0 <= k < |front| :: es[k] == front[k];
    if NoneNear(es, near) && front != [] {
      assert !near(es[|front| - 1], es[|front|]);
    }
    if NoneNear(es, near) {
      forall k | 0 <= k < |front| - 1 ensures !near(front[k], front[k + 1]) {
        assert !near(es[k], es[k + 1]);
      }
    }
  }

  lemma AppendFixesExactly<T>(log: seq<T>, front: seq<T>, e: T, near: (T, T) -> bool, merge: (T, T) -> T)
    requires |log| <= |front|
    ensures Append(log, e, near, merge) == front + [e] <==>
      log == front && (front == [] || !near(front[|front| - 1], e))
  {
    if Append(log, e, near, merge) == front + [e] {
      assert Append(log, e, near, merge) == log + [e];
      assert log == (log + [e])[..|log|] == (front + [e])[..|front|] == front;
    }
  }

  lemma {:induction false} FoldFixesExactly<T>(es: seq<T>, near: (T, T) -> bool, merge: (T, T) -> T)
    ensures AppendAll([], es, near, merge) == es <==> NoneNear(es, near)
  {
    if es != [] {
      var front, e := es[..|es| - 1], es[|es| - 1];
      FoldFixesExactly(front, near, merge);
      FoldLength(front, near, merge);
      assert es == front + [e];
      NoneNearStep(front, e, near);
      AppendFixesExactly(AppendAll([], front, near, merge), front, e, near, merge);
    }
  }

  /** No two neighbouring runs end near each other. */
  predicate Settled<T>(es: seq<T>, near: (T, T) -> bool) {
    var rs := Runs(es, near);
    forall k | 0 <= k < |rs| - 1 && rs[k] != [] && rs[k + 1] != [] :: !near(Last(rs[k]), Last(rs[k + 1]))
  }

  /** Folding twice is folding once, exactly on settled lists. */
  lemma FoldIsIdempotentExactlyWhen<T(!new)>(es: seq<T>, near: (T, T) -> bool, merge: (T, T) -> T)
    requires FacesLikeLast(near, merge)
    ensures var log := AppendAll([], es, near, merge);
      AppendAll([], log, near, merge) == log <==> Settled(es, near)
  {
    FoldMergesMaximalRuns(es, near, merge);
    var rs, log := Runs(es, near), AppendAll([], es, near, merge);
    FoldFixesExactly(log, near, merge);
    forall k | 0 <= k < |rs| - 1
      ensures near(log[k], log[k + 1]) <==> near(Last(rs[k]), Last(rs[k + 1]))
    {
      RunFacesLikeLast(rs[k], log[k + 1], near, merge);
      RunFacesLikeLast(rs[k + 1], Last(rs[k]), near, merge);
    }
  }

  lemma AppendAllOne<T>(log: seq<T>, es: seq<T>, e: T, near: (T, T) -> bool, merge: (T, T) -> T)
    ensures AppendAll(log, es + [e], near, merge) == Append(AppendAll(log, es, near, merge), e, near, merge)
  {
    assert (es + [e])[..|es|] == es;
  }

  lemma SplitsOneMore<T>(log: seq<T>, xs: seq<T>, front: seq<T>, e: T, near: (T, T) -> bool, merge: (T, T) -> T)
    requires AppendAll(log, xs + front, near, merge) == AppendAll(AppendAll(log, xs, near, merge), front, near, merge)
    ensures AppendAll(log, xs + front + [e], near, merge)
         == AppendAll(AppendAll(log, xs, near, merge), front + [e], near, merge)
  {
    AppendAllOne(log, xs + front, e, near, merge);
    AppendAllOne(AppendAll(log, xs, near, merge), front, e, near, merge);
  }

  lemma {:induction false} AppendAllSplits<T>(log: seq<T>, xs: seq<T>, ys: seq<T>, near: (T, T) -> bool, merge: (T, T) -> T)
    ensures AppendAll(log, xs + ys, near, merge) == AppendAll(AppendAll(log, xs, near, merge), ys, near, merge)
  {
    if ys == [] {
      assert xs + ys == xs;
    } else {
      var front, e := ys[..|ys| - 1], ys[|ys| - 1];
      assert ys == front + [e] && xs + ys == xs + front + [e];
      AppendAllSplits(log, xs, front, near, merge);
      SplitsOneMore(log, xs, front, e, near, merge);
    }
  }

  /** Runs k and k + 1 meet behind element i of the list. */
  ghost predicate MeetAt<T>(es: seq<T>, rs: seq<seq<T>>, k: nat, i: nat) {
    && k < |rs| - 1 && i < |es| - 1 && rs[k] != [] && rs[k + 1] != []
    && es[i] == Last(rs[k]) && es[i + 1] == rs[k + 1][0]
  }

  lemma MeetingKept<T>(es: seq<T>, e: T, rs: seq<seq<T>>, near: (T, T) -> bool, k: nat, i: nat)
    requires MeetAt(es, rs, k, i)
    ensures MeetAt(es + [e], ExtendRuns(rs, e, near), k, i)
  {
    var after := ExtendRuns(rs, e, near);
    assert after[k] == rs[k] && after[k + 1] != [] && after[k + 1][0] == rs[k + 1][0];
  }

  lemma NewMeeting<T>(es: seq<T>, e: T, rs: seq<seq<T>>, near: (T, T) -> bool)
    requires es != [] && rs != [] && Last(rs) != [] && Last(Last(rs)) == Last(es)
    requires |ExtendRuns(rs, e, near)| > |rs|
    ensures MeetAt(es + [e], ExtendRuns(rs, e, near), |rs| - 1, |es| - 1)
  {}

  /** Where two neighbouring runs meet in the list. */
  lemma {:induction false} RunBoundary<T>(es: seq<T>, near: (T, T) -> bool, k: nat) returns (i: nat)
    requires k < |Runs(es, near)| - 1
    ensures MeetAt(es, Runs(es, near), k, i)
  {
    var front, e := es[..|es| - 1], es[|es| - 1];
    var before := Runs(front, near);
    assert es == front + [e];
    if k < |before| - 1 {
      i := RunBoundary(front, near, k);
      MeetingKept(front, e, before, near, k, i);
    } else {
      i := |front| - 1;
      RunsAreMaximal(front, near);
      NewMeeting(front, e, before, near);
    }
  }

  lemma ThreeInTwoRuns<T>(a: T, b: T, c: T, near: (T, T) -> bool)
    requires !near(a, b) && near(b, c)
    ensures Runs([a, b, c], near) == [[a], [b, c]]
  {
    assert [a, b, c][..2] == [a, b] && [a, b][..1] == [a] && [a][..0] == [];
    assert Runs([a], near) == [[a]];
    assert Runs([a, b], near) == [[a], [b]];
    assert [[a], [b]][..1] == [[a]] && [b] + [c] == [b, c];
  }

  /* ---- a cap on the length ---- */

  function LastN<T>(es: seq<T>, n: nat): seq<T> {
    if |es| <= n then es else es[|es| - n..]
  }

  function DropOldest<T>(log: seq<T>, n: nat): seq<T> {
    if |log| > n then log[1..] else log
  }

  lemma LastOfReplaced<T>(log: seq<T>, m: T, n: nat)
    requires 0 < n < |log|
    ensures LastN(log[..|log| - 1] + [m], n) == LastN(log, n)[..n - 1] + [m]
  {}

  lemma LastOfLonger<T>(log: seq<T>, e: T, n: nat)
    requires 0 < n < |log|
    ensures LastN(log + [e], n) == LastN(log, n)[1..] + [e]
  {}

  /** Dropping old elements before or after an append makes no difference. */
  lemma AppendCommutesWithCap<T>(log: seq<T>, e: T, near: (T, T) -> bool, merge: (T, T) -> T, n: nat)
    requires n > 0
    ensures DropOldest(Append(LastN(log, n), e, near, merge), n) == LastN(Append(log, e, near, merge), n)
  {
    if |log| > n {
      var recent, last := LastN(log, n), log[|log| - 1];
      assert recent[n - 1] == last;
      if near(last, e) {
        LastOfReplaced(log, merge(last, e), n);
      } else {
        LastOfLonger(log, e, n);
        assert (recent + [e])[1..] == recent[1..] + [e];
      }
    }
  }
}
