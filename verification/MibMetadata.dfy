/** Constraints declared on MIB nodes: bounds extraction and the validator. */
module MibMetadata {
  import opened Text

  /** An element of a range or size list: a proper integer pair, or something to skip. */
  datatype Item = Pair(low: int, high: int) | Malformed

  /** A constraint record by kind; Junk stands for a list element that is not a record. */
  datatype Constraint =
    | Range(data: seq<Item>)
    | Size(data: seq<Item>)
    | Union(items: seq<Constraint>)
    | Enumeration(labels: seq<(string, int)>)
    | Bits
    | Other
    | Junk

  datatype BoundsKind = RangeBounds | SizeBounds

  /** What the validator is given: an integer, or a string of some length in bytes. */
  datatype Candidate = Num(i: int) | Len(n: nat)

  function BoundsPairs(data: seq<Item>): seq<(int, int)> {
    if data == [] then []
    else
      BoundsPairs(data[..|data| - 1])
      + (match data[|data| - 1] case Pair(low, high) => [(low, high)] case Malformed => [])
  }

  /** The pairs a record declares directly, when it is of the wanted kind. */
  function OwnPairs(c: Constraint, kind: BoundsKind): seq<(int, int)> {
    match (c, kind)
    case (Range(data), RangeBounds) => BoundsPairs(data)
    case (Size(data), SizeBounds) => BoundsPairs(data)
    case _ => []
  }

  function UnionPairs(items: seq<Constraint>, kind: BoundsKind): seq<(int, int)> {
    if items == [] then []
    else UnionPairs(items[..|items| - 1], kind) + OwnPairs(items[|items| - 1], kind)
  }

  /** Declared bounds of a kind, directly or one level down in a union. */
  function BoundsForKind(c: Constraint, kind: BoundsKind): seq<(int, int)> {
    if c.Union? then UnionPairs(c.items, kind) else OwnPairs(c, kind)
  }

  method CollectPairs(data: seq<Item>) returns (pairs: seq<(int, int)>)
    ensures pairs == BoundsPairs(data)
  {
    pairs := [];
    for i := 0 to |data|
      invariant pairs == BoundsPairs(data[..i])
    {
      assert data[..i + 1][..i] == data[..i];
      if data[i].Pair? {
        pairs := pairs + [(data[i].low, data[i].high)];
      }
    }
    assert data[..|data|] == data;
  }

  method CollectUnionPairs(items: seq<Constraint>, kind: BoundsKind) returns (pairs: seq<(int, int)>)
    ensures pairs == UnionPairs(items, kind)
  {
    pairs := [];
    for i := 0 to |items|
      invariant pairs == UnionPairs(items[..i], kind)
    {
      assert items[..i + 1][..i] == items[..i];
      var c := items[i];
      if (c.Range? && kind.RangeBounds?) || (c.Size? && kind.SizeBounds?) {
        var own := CollectPairs(c.data);
        pairs := pairs + own;
      }
    }
    assert items[..|items|] == items;
  }

  predicate Within(v: int, pairs: seq<(int, int)>) {
    exists k | 0 <= k < |pairs| :: pairs[k].0 <= v <= pairs[k].1
  }

  /** constraint_violation: is the value rejected? */
  predicate Violates(v: Candidate, c: Constraint)
    decreases c
  {
    match c
    case Range(data) => v.Num? && BoundsPairs(data) != [] && !Within(v.i, BoundsPairs(data))
    case Size(data) => v.Len? && BoundsPairs(data) != [] && !Within(v.n, BoundsPairs(data))
    case Union(items) => forall k | 0 <= k < |items| && !items[k].Junk? :: Violates(v, items[k])
    case _ => false
  }

  /* ---- what a constraint accepts ---- */

  lemma {:induction false} UnionPairSource(items: seq<Constraint>, kind: BoundsKind, p: (int, int)) returns (k: nat)
    requires p in UnionPairs(items, kind)
    ensures k < |items| && p in OwnPairs(items[k], kind)
  {
    var n := |items| - 1;
    if p in OwnPairs(items[n], kind) {
      k := n;
    } else {
      k := UnionPairSource(items[..n], kind, p);
    }
  }

  lemma {:induction false} UnionPairsEmpty(items: seq<Constraint>, kind: BoundsKind, k: nat)
    requires UnionPairs(items, kind) == [] && k < |items|
    ensures OwnPairs(items[k], kind) == []
  {
    var n := |items| - 1;
    if k < n {
      UnionPairsEmpty(items[..n], kind, k);
    }
  }

  function KindOf(v: Candidate): BoundsKind {
    if v.Num? then RangeBounds else SizeBounds
  }

  function Measure(v: Candidate): int {
    match v case Num(i) => i case Len(n) => n
  }

  /** A value inside one of the declared bounds of its kind is never rejected. */
  lemma WithinBoundsIsAccepted(v: Candidate, c: Constraint, k: nat)
    requires var pairs := BoundsForKind(c, KindOf(v)); k < |pairs| && pairs[k].0 <= Measure(v) <= pairs[k].1
    ensures !Violates(v, c)
  {
    var pairs := BoundsForKind(c, KindOf(v));
    if c.Union? {
      var j := UnionPairSource(c.items, KindOf(v), pairs[k]);
      assert !Violates(v, c.items[j]);
    }
  }

  /** Nothing in the constraint can reject a value of the kind. */
  predicate Opens(c: Constraint, kind: BoundsKind)
    decreases c
  {
    match c
    case Range(data) => kind == SizeBounds || BoundsPairs(data) == []
    case Size(data) => kind == RangeBounds || BoundsPairs(data) == []
    case Union(items) => exists k | 0 <= k < |items| && !items[k].Junk? :: Opens(items[k], kind)
    case _ => true
  }

  lemma {:induction false} OpenAcceptsAll(c: Constraint, v: Candidate)
    requires Opens(c, KindOf(v))
    ensures !Violates(v, c)
    decreases c
  {
    if c.Union? {
      var k :| 0 <= k < |c.items| && !c.items[k].Junk? && Opens(c.items[k], KindOf(v));
      OpenAcceptsAll(c.items[k], v);
    }
  }

  predicate PairsBelow(pairs: seq<(int, int)>, v: int) {
    forall k | 0 <= k < |pairs| :: pairs[k].1 < v
  }

  /** Every declared bound, at any depth, lies below v. */
  predicate AllBelow(c: Constraint, v: int)
    decreases c
  {
    match c
    case Range(data) => PairsBelow(BoundsPairs(data), v)
    case Size(data) => PairsBelow(BoundsPairs(data), v)
    case Union(items) => forall k | 0 <= k < |items| :: AllBelow(items[k], v)
    case _ => true
  }

  lemma {:induction false} AllBelowMore(c: Constraint, v: int, w: int)
    requires AllBelow(c, v) && v <= w
    ensures AllBelow(c, w)
    decreases c
  {
    if c.Union? {
      forall k | 0 <= k < |c.items| ensures AllBelow(c.items[k], w) {
        AllBelowMore(c.items[k], v, w);
      }
    }
  }

  lemma {:induction false} PairsHaveCeiling(pairs: seq<(int, int)>) returns (v: nat)
    ensures PairsBelow(pairs, v)
  {
    v := 0;
    if pairs != [] {
      var n := |pairs| - 1;
      v := PairsHaveCeiling(pairs[..n]);
      if v <= pairs[n].1 {
        v := pairs[n].1 + 1;
      }
      assert forall k | 0 <= k < n :: pairs[..n][k] == pairs[k];
    }
  }

  lemma {:induction false} HasCeiling(c: Constraint) returns (v: nat)
    ensures AllBelow(c, v)
    decreases c
  {
    match c
    case Range(data) => v := PairsHaveCeiling(BoundsPairs(data));
    case Size(data) => v := PairsHaveCeiling(BoundsPairs(data));
    case Union(items) => v := ItemsHaveCeiling(items);
    case _ => v := 0;
  }

  lemma {:induction false} ItemsHaveCeiling(items: seq<Constraint>) returns (v: nat)
    ensures forall k | 0 <= k < |items| :: AllBelow(items[k], v)
    decreases items
  {
    v := 0;
    if items != [] {
      var n := |items| - 1;
      var before := ItemsHaveCeiling(items[..n]);
      var last := HasCeiling(items[n]);
      v := if before >= last then before else last;
      forall k | 0 <= k < |items| ensures AllBelow(items[k], v) {
        if k < n {
          assert items[..n][k] == items[k];
        }
        AllBelowMore(items[k], if k == n then last else before, v);
      }
    }
  }

  /** What is not open rejects every value above all its bounds. */
  lemma {:induction false} ClosedRejectsLarge(c: Constraint, v: Candidate)
    requires !Opens(c, KindOf(v)) && AllBelow(c, Measure(v))
    ensures Violates(v, c)
    decreases c
  {
    if c.Union? {
      forall k | 0 <= k < |c.items| && !c.items[k].Junk? ensures Violates(v, c.items[k]) {
        ClosedRejectsLarge(c.items[k], v);
      }
    }
  }

  /** A constraint accepts every value of a kind exactly when it is open for the kind. */
  lemma AcceptsEverythingExactlyWhen(c: Constraint, kind: BoundsKind)
    ensures (forall v: Candidate | KindOf(v) == kind :: !Violates(v, c)) <==> Opens(c, kind)
  {
    if Opens(c, kind) {
      forall v: Candidate | KindOf(v) == kind ensures !Violates(v, c) {
        OpenAcceptsAll(c, v);
      }
    } else {
      var high := HasCeiling(c);
      var v := if kind == RangeBounds then Num(high) else Len(high);
      ClosedRejectsLarge(c, v);
    }
  }

  /** The constraint can reject a value of the kind although it shows no bounds of it. */
  predicate Hides(c: Constraint, kind: BoundsKind) {
    BoundsForKind(c, kind) == [] && !Opens(c, kind)
  }

  /** That happens exactly for a union whose every alternative, if it has any, is a union that is
      not open. */
  lemma HidesExactlyWhen(c: Constraint, kind: BoundsKind)
    ensures Hides(c, kind) <==>
      c.Union? && forall k | 0 <= k < |c.items| && !c.items[k].Junk? :: c.items[k].Union? && !Opens(c.items[k], kind)
  {
    if c.Union? {
      if UnionPairs(c.items, kind) == [] {
        forall k | 0 <= k < |c.items| && !c.items[k].Junk? && !c.items[k].Union? ensures Opens(c.items[k], kind) {
          UnionPairsEmpty(c.items, kind, k);
        }
      } else {
        var p := UnionPairs(c.items, kind)[0];
        assert p in UnionPairs(c.items, kind);
        var k := UnionPairSource(c.items, kind, p);
        assert !c.items[k].Junk? && !c.items[k].Union?;
      }
    }
  }

  /** A union without alternatives rejects everything, although it declares no bounds. */
  lemma EmptyUnionRejectsEverything(v: Candidate)
    ensures Violates(v, Union([])) && BoundsForKind(Union([]), KindOf(v)) == []
  {}

  /** Bounds two levels down are not found, yet the validator enforces them. */
  lemma NestedUnionHidesBounds()
    ensures var c := Union([Union([Range([Pair(1, 5)])])]);
      BoundsForKind(c, RangeBounds) == [] && Violates(Num(6), c)
  {
    var inner := Union([Range([Pair(1, 5)])]);
    var c := Union([inner]);
    assert [Pair(1, 5)][..0] == [];
    assert BoundsPairs([Pair(1, 5)]) == [(1, 5)];
    assert [inner][..0] == [];
    assert UnionPairs([inner], RangeBounds) == [];
    assert forall k | 0 <= k < 1 :: Violates(Num(6), inner.items[k]);
  }

  /* ---- the validator on the declared pairs ---- */

  lemma {:induction false} PairsOfData(data: seq<Item>, p: (int, int))
    ensures p in BoundsPairs(data) <==> Pair(p.0, p.1) in data
  {
    if data != [] {
      PairsOfData(data[..|data| - 1], p);
      assert data == data[..|data| - 1] + [data[|data| - 1]];
    }
  }

  predicate Declares(data: seq<Item>, v: int) {
    exists k | 0 <= k < |data| && data[k].Pair? :: data[k].low <= v <= data[k].high
  }

  predicate DeclaresAny(data: seq<Item>) {
    exists k | 0 <= k < |data| :: data[k].Pair?
  }

  lemma {:induction false} WithinMeansDeclared(data: seq<Item>, v: int)
    ensures Within(v, BoundsPairs(data)) <==> Declares(data, v)
    ensures BoundsPairs(data) != [] <==> DeclaresAny(data)
  {
    if Within(v, BoundsPairs(data)) {
      var k :| 0 <= k < |BoundsPairs(data)| && BoundsPairs(data)[k].0 <= v <= BoundsPairs(data)[k].1;
      PairsOfData(data, BoundsPairs(data)[k]);
    }
    if k :| 0 <= k < |data| && data[k].Pair? && data[k].low <= v <= data[k].high {
      var p := (data[k].low, data[k].high);
      PairsOfData(data, p);
      var j :| 0 <= j < |BoundsPairs(data)| && BoundsPairs(data)[j] == p;
    }
    if BoundsPairs(data) != [] {
      PairsOfData(data, BoundsPairs(data)[0]);
    }
    if k :| 0 <= k < |data| && data[k].Pair? {
      PairsOfData(data, (data[k].low, data[k].high));
    }
  }

  /** A number is rejected by a range that declares a pair and none around it, a length by such a
      size; the other kind never is; and a union rejects what all its alternatives reject. */
  lemma RejectsExactlyWhen(data: seq<Item>, items: seq<Constraint>, i: int, n: nat)
    ensures Violates(Num(i), Range(data)) <==> DeclaresAny(data) && !Declares(data, i)
    ensures Violates(Len(n), Size(data)) <==> DeclaresAny(data) && !Declares(data, n)
    ensures !Violates(Len(n), Range(data)) && !Violates(Num(i), Size(data))
    ensures Violates(Num(i), Union(items)) <==> forall k | 0 <= k < |items| && items[k] != Junk :: Violates(Num(i), items[k])
    ensures Violates(Len(n), Union(items)) <==> forall k | 0 <= k < |items| && items[k] != Junk :: Violates(Len(n), items[k])
  {
    WithinMeansDeclared(data, i);
    WithinMeansDeclared(data, n);
  }
}
