/** The simulator log: walk requests that follow one another closely are merged into one entry,
    as they arrive and again when the list is reloaded. */
module LogCoalescing {
  import opened Text
  import opened Lists
  import opened SlidingMerge

  /** A non-empty timestamp text with what Date.parse makes of it. */
  datatype Stamp = Stamp(text: string, ms: Option<int>)

  /** A normalized entry: the request type is upper case, absent fields are None. */
  datatype Entry = Entry(
    level: string,
    message: string,
    requestType: Option<string>,
    firstRequested: Option<string>,
    firstReturned: Option<string>,
    timestamp: Option<Stamp>,
    lastEvent: Option<Stamp>,
    oidCount: Option<nat>,
    requestCount: Option<nat>)

  const RETENTION: nat := 500
  const WINDOW_MS: int := 1200

  /** JavaScript's a || b on optional fields. */
  function OrElse<T>(a: Option<T>, b: Option<T>): Option<T> {
    if a.Some? then a else b
  }

  function GetOr<T>(a: Option<T>, default: T): T {
    if a.Some? then a.value else default
  }

  function Requests(e: Entry): nat {
    if e.requestCount.Some? && e.requestCount.value > 0 then e.requestCount.value else 1
  }

  function Oids(e: Entry): nat {
    GetOr(e.oidCount, 0)
  }

  /** When the entry last happened, in milliseconds, if that can be told. */
  function Time(e: Entry): Option<int> {
    var stamp := OrElse(e.lastEvent, e.timestamp);
    if stamp.Some? then stamp.value.ms else None
  }

  function TypeOf(e: Entry): string {
    GetOr(e.requestType, "")
  }

  predicate ShouldBatch(previous: Entry, next: Entry) {
    && TypeOf(previous) == TypeOf(next) && (TypeOf(previous) == "GETNEXT" || TypeOf(previous) == "GETBULK")
    && previous.level == "info" && next.level == "info"
    && Time(previous).Some? && Time(next).Some?
    && Time(previous).value <= Time(next).value <= Time(previous).value + WINDOW_MS
  }

  function BatchMessage(kind: string, requests: nat, oids: nat, first: Option<string>, last: Option<string>): string {
    var range := if first.Some? && last.Some? && first != last then " from " + first.value + " -> " + last.value
      else if first.Some? then " from " + first.value
      else "";
    "Walk activity: " + NatToString(requests) + " " + kind + (if requests == 1 then " request, " else " requests, ")
      + NatToString(oids) + (if oids == 1 then " OID" else " OIDs") + range
  }

  function Merge(previous: Entry, next: Entry): Entry {
    var requests := Requests(previous) + Requests(next);
    var oids := Oids(previous) + Oids(next);
    var first := OrElse(previous.firstRequested, next.firstRequested);
    var last := OrElse(OrElse(next.firstReturned, next.firstRequested), previous.firstReturned);
    var kind := GetOr(OrElse(next.requestType, previous.requestType), "GETNEXT");
    Entry(
      "info",
      BatchMessage(kind, requests, oids, first, last),
      Some(kind),
      first,
      last,
      OrElse(next.timestamp, previous.timestamp),
      OrElse(OrElse(next.lastEvent, next.timestamp), OrElse(previous.lastEvent, previous.timestamp)),
      Some(oids),
      Some(requests))
  }

  /* ---- laws of one merge ---- */

  /** Counts, first and last OIDs and timestamps associate for any three entries. */
  lemma MergeFieldsAssociate(a: Entry, b: Entry, c: Entry)
    ensures var left, right := Merge(Merge(a, b), c), Merge(a, Merge(b, c));
      && left.requestCount == right.requestCount && left.oidCount == right.oidCount
      && left.firstRequested == right.firstRequested && left.firstReturned == right.firstReturned
      && left.timestamp == right.timestamp && left.lastEvent == right.lastEvent
  {}

  /** The whole merge, type and message included, associates exactly unless the only entry with a
      type is the first and that type is not the default. */
  lemma MergeAssociatesExactlyWhen(a: Entry, b: Entry, c: Entry)
    ensures Merge(Merge(a, b), c) == Merge(a, Merge(b, c)) <==>
      b.requestType.Some? || c.requestType.Some? || GetOr(a.requestType, "GETNEXT") == "GETNEXT"
  {
    MergeFieldsAssociate(a, b, c);
  }

  /** Merging is associative on batchable entries: counts, OIDs, timestamps, type and message. */
  lemma MergeAssociates(a: Entry, b: Entry, c: Entry)
    requires ShouldBatch(a, b) && ShouldBatch(b, c)
    ensures Merge(Merge(a, b), c) == Merge(a, Merge(b, c))
  {
    MergeAssociatesExactlyWhen(a, b, c);
  }

  lemma MergeLaws()
    ensures FacesLikeLast(ShouldBatch, Merge)
    ensures Additive(Requests, Merge) && Additive(Oids, Merge)
  {
    forall a, b, x | ShouldBatch(a, b)
      ensures ShouldBatch(Merge(a, b), x) <==> ShouldBatch(b, x)
      ensures ShouldBatch(x, Merge(a, b)) <==> ShouldBatch(x, b)
    {
      assert Time(Merge(a, b)) == Time(b) && TypeOf(Merge(a, b)) == TypeOf(b);
    }
  }

  /* ---- coalescing a list ---- */

  function Coalesce(es: seq<Entry>): seq<Entry> {
    AppendAll([], es, ShouldBatch, Merge)
  }

  method CoalesceLogEntries(entries: seq<Entry>) returns (acc: seq<Entry>)
    ensures acc == Coalesce(entries)
  {
    acc := [];
    for i := 0 to |entries|
      invariant acc == Coalesce(entries[..i])
    {
      assert entries[..i + 1][..i] == entries[..i];
      if acc != [] && ShouldBatch(acc[|acc| - 1], entries[i]) {
        acc := acc[..|acc| - 1] + [Merge(acc[|acc| - 1], entries[i])];
      } else {
        acc := acc + [entries[i]];
      }
    }
    assert entries[..|entries|] == entries;
  }

  /** Coalescing conserves the number of requests and of OIDs. */
  lemma CoalesceConservesTotals(es: seq<Entry>)
    ensures Total(Coalesce(es), Requests) == Total(es, Requests)
    ensures Total(Coalesce(es), Oids) == Total(es, Oids)
  {
    MergeLaws();
    AppendAllConserves([], es, ShouldBatch, Merge, Requests);
    AppendAllConserves([], es, ShouldBatch, Merge, Oids);
  }

  /** Coalescing merges each maximal batchable run, whatever the order of the timestamps. */
  lemma CoalesceMergesMaximalRuns(es: seq<Entry>)
    ensures var rs := Runs(es, ShouldBatch);
      Flatten(rs) == es && MaximalRuns(rs, ShouldBatch) && Coalesce(es) == MergeRuns(rs, Merge)
  {
    MergeLaws();
    RunsAreMaximal(es, ShouldBatch);
    FoldMergesMaximalRuns(es, ShouldBatch, Merge);
  }

  /** Coalescing twice is coalescing once, exactly when no two neighbouring runs end close enough,
      and in order, to be merged. */
  lemma CoalesceIsIdempotentExactlyWhen(es: seq<Entry>)
    ensures Coalesce(Coalesce(es)) == Coalesce(es) <==> Settled(es, ShouldBatch)
  {
    MergeLaws();
    FoldIsIdempotentExactlyWhen(es, ShouldBatch, Merge);
  }

  /** Neighbouring entries of one type carry non-decreasing times. */
  predicate TimeOrdered(es: seq<Entry>) {
    forall k | 0 <= k < |es| - 1 && TypeOf(es[k]) == TypeOf(es[k + 1]) && Time(es[k]).Some? && Time(es[k + 1]).Some? ::
      Time(es[k]).value <= Time(es[k + 1]).value
  }

  /** What the first and last entry of a run have in common. */
  predicate Continues(first: Entry, last: Entry) {
    first == last
    || (first.level == "info" && TypeOf(first) == TypeOf(last) && Time(first).Some? && Time(last).Some?
        && Time(first).value <= Time(last).value)
  }

  lemma {:induction false} RunContinues(r: seq<Entry>)
    requires IsRun(r, ShouldBatch)
    ensures Continues(r[0], Last(r))
  {
    if |r| > 1 {
      RunContinues(r[..|r| - 1]);
      assert ShouldBatch(r[|r| - 2], r[|r| - 1]);
    }
  }

  lemma EndsStayApart(end: Entry, first: Entry, last: Entry)
    requires !ShouldBatch(end, first) && Continues(first, last)
    requires TypeOf(end) == TypeOf(first) && Time(end).Some? && Time(first).Some? ==> Time(end).value <= Time(first).value
    ensures !ShouldBatch(end, last)
  {}

  /** A time-ordered list is settled. */
  lemma TimeOrderedIsSettled(es: seq<Entry>)
    requires TimeOrdered(es)
    ensures Settled(es, ShouldBatch)
  {
    RunsAreMaximal(es, ShouldBatch);
    var rs := Runs(es, ShouldBatch);
    forall k | 0 <= k < |rs| - 1 ensures !ShouldBatch(Last(rs[k]), Last(rs[k + 1])) {
      var i := RunBoundary(es, ShouldBatch, k);
      RunContinues(rs[k + 1]);
      EndsStayApart(es[i], es[i + 1], Last(rs[k + 1]));
    }
  }

  function WalkAt(t: int): Entry {
    Entry("info", "", Some("GETNEXT"), None, None, Some(Stamp("t", Some(t))), None, None, None)
  }

  /** An out-of-order list that a second pass shortens: 5000, then 4000 and 5000 merged. */
  lemma OutOfOrderIsNotSettled()
    ensures !Settled([WalkAt(5000), WalkAt(4000), WalkAt(5000)], ShouldBatch)
  {
    ThreeInTwoRuns(WalkAt(5000), WalkAt(4000), WalkAt(5000), ShouldBatch);
    var rs := Runs([WalkAt(5000), WalkAt(4000), WalkAt(5000)], ShouldBatch);
    assert Last(rs[0]) == WalkAt(5000) && Last(rs[1]) == WalkAt(5000);
  }

  /* ---- splitting, live appends and reloads ---- */

  /** coalesce(coalesce(xs) + ys) = coalesce(xs + ys) for every ys, exactly when xs is settled. */
  lemma CoalesceSplitsExactlyWhen(xs: seq<Entry>)
    ensures Settled(xs, ShouldBatch) <==> forall ys :: Coalesce(Coalesce(xs) + ys) == Coalesce(xs + ys)
  {
    CoalesceIsIdempotentExactlyWhen(xs);
    forall ys ensures Settled(xs, ShouldBatch) ==> Coalesce(Coalesce(xs) + ys) == Coalesce(xs + ys) {
      AppendAllSplits([], Coalesce(xs), ys, ShouldBatch, Merge);
      AppendAllSplits([], xs, ys, ShouldBatch, Merge);
    }
    assert Coalesce(xs) + [] == Coalesce(xs) && xs + [] == xs;
  }

  /** One live append: merge or push, then drop the oldest entry above the cap. */
  function LiveAppend(log: seq<Entry>, e: Entry): seq<Entry> {
    DropOldest(Append(log, e, ShouldBatch, Merge), RETENTION)
  }

  /** Dropping old entries before or after an append makes no difference. */
  lemma CapAndAppendCommute(log: seq<Entry>, e: Entry)
    ensures LiveAppend(LastN(log, RETENTION), e) == LastN(Append(log, e, ShouldBatch, Merge), RETENTION)
  {
    AppendCommutesWithCap(log, e, ShouldBatch, Merge, RETENTION);
  }

  /** The page's shared log. */
  class AppState {
    var logs: seq<Entry>

    constructor ()
      ensures logs == []
    {
      logs := [];
    }

    method AppendSimulatorLogEntry(e: Entry) returns (shown: Entry)
      modifies this
      ensures logs == LiveAppend(old(logs), e)
      ensures logs != [] && shown == Last(logs)
    {
      if logs != [] && ShouldBatch(logs[|logs| - 1], e) {
        logs := logs[..|logs| - 1] + [Merge(logs[|logs| - 1], e)];
      } else {
        logs := logs + [e];
      }
      if |logs| > RETENTION {
        logs := logs[1..];
      }
      shown := logs[|logs| - 1];
    }

    /** A session of live appends on top of a stored or refreshed log keeps the newest entries of
        that log continued by the stream. */
    method AppendStream(es: seq<Entry>, ghost base: seq<Entry>)
      requires logs == LastN(base, RETENTION)
      modifies this
      ensures logs == LastN(AppendAll(base, es, ShouldBatch, Merge), RETENTION)
      ensures base == [] ==> logs == LastN(Coalesce(es), RETENTION)
    {
      for i := 0 to |es|
        invariant logs == LastN(AppendAll(base, es[..i], ShouldBatch, Merge), RETENTION)
      {
        assert es[..i + 1][..i] == es[..i];
        CapAndAppendCommute(AppendAll(base, es[..i], ShouldBatch, Merge), es[i]);
        var _ := AppendSimulatorLogEntry(es[i]);
      }
      assert es[..|es|] == es;
    }
  }

  predicate LocalOnly(e: Entry) {
    e.timestamp.None? && e.lastEvent.None?
  }

  function MergeLogLists(existing: seq<Entry>, incoming: seq<Entry>): seq<Entry> {
    if incoming == [] then LastN(existing, RETENTION)
    else LastN(Coalesce(incoming + Filter(existing, LocalOnly)), RETENTION)
  }

  /** A backend refresh: the fetched items are coalesced, then merged with the pane. */
  function Refresh(existing: seq<Entry>, items: seq<Entry>): seq<Entry> {
    MergeLogLists(existing, Coalesce(items))
  }

  lemma {:induction false} LocalEntriesNeverBatch(log: seq<Entry>, local: seq<Entry>)
    requires forall e | e in local :: LocalOnly(e)
    ensures AppendAll(log, local, ShouldBatch, Merge) == log + local
  {
    if local == [] {
      assert log + local == log;
    } else {
      LocalEntriesNeverBatch(log, local[..|local| - 1]);
      assert local == local[..|local| - 1] + [Last(local)];
      assert Last(local) in local && Time(Last(local)).None?;
    }
  }

  /** On settled items a refresh shows what live appends of the same items show, followed by every
      local entry of the pane in order, all cut to the newest 500. */
  lemma RefreshAgreesWithLiveLog(existing: seq<Entry>, items: seq<Entry>)
    requires Settled(items, ShouldBatch) && items != []
    ensures Refresh(existing, items) == LastN(Coalesce(items) + Filter(existing, LocalOnly), RETENTION)
    ensures Filter(existing, LocalOnly) == [] ==> Refresh(existing, items) == LastN(Coalesce(items), RETENTION)
  {
    var local := Filter(existing, LocalOnly);
    CoalesceIsIdempotentExactlyWhen(items);
    AppendAllSplits([], Coalesce(items), local, ShouldBatch, Merge);
    FilterMembers(existing, LocalOnly);
    LocalEntriesNeverBatch(Coalesce(Coalesce(items)), local);
    if local == [] {
      assert Coalesce(items) + local == Coalesce(items);
    }
  }

  /* ---- the batch rule and a merged run, field by field ---- */

  /** The entry last happened at t: by its last event, or by its timestamp if that is missing. */
  predicate HappenedAt(e: Entry, t: int) {
    || (e.lastEvent.Some? && e.lastEvent.value.ms == Some(t))
    || (e.lastEvent.None? && e.timestamp.Some? && e.timestamp.value.ms == Some(t))
  }

  /** Two entries batch exactly when both are info walk requests of one type and the second happened
      at most 1.2 seconds after the first. */
  lemma BatchesExactlyWhen(a: Entry, b: Entry)
    ensures ShouldBatch(a, b) <==>
      && a.level == "info" && b.level == "info"
      && (a.requestType == b.requestType == Some("GETNEXT") || a.requestType == b.requestType == Some("GETBULK"))
      && exists s, t :: HappenedAt(a, s) && HappenedAt(b, t) && s <= t <= s + 1200
  {
    if ShouldBatch(a, b) {
      assert HappenedAt(a, Time(a).value) && HappenedAt(b, Time(b).value);
    }
  }

  /** How many requests and OIDs an entry stands for. */
  lemma EntryCounts(e: Entry)
    ensures Requests(e) == if e.requestCount.None? || e.requestCount.value == 0 then 1 else e.requestCount.value
    ensures Oids(e) == if e.oidCount.None? then 0 else e.oidCount.value
  {}

  /** The first OID requested in a run. */
  function FirstAsked(r: seq<Entry>): Option<string>
    requires r != []
  {
    if |r| == 1 || r[0].firstRequested.Some? then r[0].firstRequested else FirstAsked(r[1..])
  }

  /** The last OID seen in a run: returned by the latest entry that returned or requested one. */
  function LastSeen(r: seq<Entry>): Option<string>
    requires r != []
  {
    var e := Last(r);
    if e.firstReturned.Some? || |r| == 1 then e.firstReturned
    else if e.firstRequested.Some? then e.firstRequested
    else LastSeen(r[..|r| - 1])
  }

  lemma {:induction false} FirstAskedOfLonger(r: seq<Entry>)
    requires |r| > 1
    ensures FirstAsked(r) == OrElse(FirstAsked(r[..|r| - 1]), Last(r).firstRequested)
  {
    if r[0].firstRequested.None? && |r| > 2 {
      FirstAskedOfLonger(r[1..]);
      assert r[1..][..|r| - 2] == r[..|r| - 1][1..];
    } else if |r| == 2 {
      assert r[1..] == [r[1]] && r[..1] == [r[0]];
    }
  }

  lemma {:induction false} RunOfOneType(r: seq<Entry>, k: nat)
    requires IsRun(r, ShouldBatch) && k < |r|
    ensures r[k].requestType == r[0].requestType
    ensures |r| > 1 ==> r[0].requestType.Some?
  {
    if |r| > 1 {
      assert ShouldBatch(r[0], r[1]);
      BatchesExactlyWhen(r[0], r[1]);
    }
    if k > 0 {
      RunOfOneType(r, k - 1);
      assert ShouldBatch(r[k - 1], r[k]);
      BatchesExactlyWhen(r[k - 1], r[k]);
    }
  }

  /** The merge of a run, and its last entry. */
  lemma RunSplits(r: seq<Entry>)
    requires IsRun(r, ShouldBatch) && |r| > 1
    ensures IsRun(r[..|r| - 1], ShouldBatch)
    ensures MergeRun(r, Merge) == Merge(MergeRun(r[..|r| - 1], Merge), Last(r))
    ensures Time(Last(r)).Some?
  {
    assert ShouldBatch(r[|r| - 2], r[|r| - 1]);
  }

  lemma {:induction false} RunTotals(r: seq<Entry>)
    requires IsRun(r, ShouldBatch)
    ensures Requests(MergeRun(r, Merge)) == Total(r, Requests) && Oids(MergeRun(r, Merge)) == Total(r, Oids)
    ensures |r| > 1 ==> MergeRun(r, Merge).requestCount == Some(Total(r, Requests))
    ensures |r| > 1 ==> MergeRun(r, Merge).oidCount == Some(Total(r, Oids))
  {
    if |r| > 1 {
      RunSplits(r);
      RunTotals(r[..|r| - 1]);
    } else {
      assert r[..0] == [];
    }
  }

  lemma {:induction false} RunEnds(r: seq<Entry>)
    requires IsRun(r, ShouldBatch)
    ensures MergeRun(r, Merge).firstRequested == FirstAsked(r)
    ensures MergeRun(r, Merge).firstReturned == LastSeen(r)
  {
    if |r| > 1 {
      RunSplits(r);
      RunEnds(r[..|r| - 1]);
      FirstAskedOfLonger(r);
    }
  }

  /** A run of several requests becomes one info entry of their type: their numbers add up, it starts
      at the first OID asked for, ends at the last one seen, and happened when the last one did. */
  lemma MergedRun(r: seq<Entry>)
    requires IsRun(r, ShouldBatch) && |r| > 1
    ensures var m := MergeRun(r, Merge);
      && m.level == "info" && m.requestType == r[0].requestType
      && m.requestCount == Some(Total(r, Requests)) && m.oidCount == Some(Total(r, Oids))
      && m.firstRequested == FirstAsked(r) && m.firstReturned == LastSeen(r)
      && Time(m) == Time(Last(r))
      && (Last(r).timestamp.Some? ==> m.timestamp == Last(r).timestamp)
  {
    RunSplits(r);
    RunTotals(r);
    RunEnds(r);
    RunOfOneType(r, |r| - 1);
  }

  /** The message names the numbers and the ends, a common end once. */
  lemma MessageText(kind: string, first: string, last: string)
    ensures BatchMessage(kind, 2, 1, Some(first), Some(last)) ==
      "Walk activity: " + "2" + " " + kind + " requests, " + "1" + " OID"
      + (if first == last then " from " + first else " from " + first + " -> " + last)
    ensures BatchMessage(kind, 2, 2, None, Some(last)) ==
      "Walk activity: " + "2" + " " + kind + " requests, " + "2" + " OIDs" + ""
    ensures BatchMessage(kind, 1, 2, Some(first), None) ==
      "Walk activity: " + "1" + " " + kind + " request, " + "2" + " OIDs" + (" from " + first)
  {
    assert NatToString(2) == "2" && NatToString(1) == "1";
  }

  /** One live append to a log of at most 500 entries. */
  lemma LiveAppendCases(log: seq<Entry>, e: Entry)
    requires |log| <= 500
    ensures LiveAppend(log, e) ==
      if log != [] && ShouldBatch(Last(log), e) then log[..|log| - 1] + [Merge(Last(log), e)]
      else if |log| < 500 then log + [e]
      else log[1..] + [e]
  {}

  /** Merging an empty refresh cuts the pane to 500; otherwise entries without any time are kept. */
  lemma MergeListsCases(existing: seq<Entry>, incoming: seq<Entry>)
    ensures incoming == [] ==>
      MergeLogLists(existing, incoming) == if |existing| <= 500 then existing else existing[|existing| - 500..]
    ensures |MergeLogLists(existing, incoming)| <= 500
    ensures forall e :: e in Filter(existing, LocalOnly) <==> e in existing && e.timestamp == None && e.lastEvent == None
  {
    FilterMembers(existing, LocalOnly);
  }
}
