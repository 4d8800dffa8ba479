/** The notification event table, its search mirror, and the paged listing over them. */
module EventHistory {
  import opened Text
  import opened Lists
  import opened Sorting

  datatype Draft = Draft(
    direction: string, pduType: string, bundleSetId: Option<int>, community: Option<string>,
    sourceHost: Option<string>, targetHost: Option<string>, name: Option<string>, oid: Option<string>,
    description: Option<string>, eventText: string, recordedAt: int)

  datatype Row = Row(id: int, event: Draft)

  datatype MirrorRow = MirrorRow(
    eventId: string, bundleSetId: string, direction: string, pduType: string, community: string,
    sourceHost: string, targetHost: string, name: string, oid: string, description: string, eventText: string)

  datatype Tables = Tables(rows: seq<Row>, mirror: seq<MirrorRow>)

  predicate IsDirection(s: string) {
    s == "received" || s == "sent" || s == "decoded"
  }

  function OrEmpty(s: Option<string>): string {
    if s.Some? then s.value else ""
  }

  function MirrorOf(r: Row): MirrorRow {
    var e := r.event;
    MirrorRow(
      IntToString(r.id), if e.bundleSetId.Some? then IntToString(e.bundleSetId.value) else "", e.direction,
      e.pduType, OrEmpty(e.community), OrEmpty(e.sourceHost), OrEmpty(e.targetHost), OrEmpty(e.name),
      OrEmpty(e.oid), OrEmpty(e.description), e.eventText)
  }

  function Mirrors(rows: seq<Row>): seq<MirrorRow> {
    seq(|rows|, i requires 0 <= i < |rows| => MirrorOf(rows[i]))
  }

  predicate DistinctIds(rows: seq<Row>) {
    forall i, j | 0 <= i < j < |rows| :: rows[i].id != rows[j].id
  }

  predicate IdInUse(rows: seq<Row>, id: int) {
    exists i | 0 <= i < |rows| :: rows[i].id == id
  }

  predicate WellFormed(r: Row) {
    IsDirection(r.event.direction) && r.event.pduType != []
  }

  /** The mirror holds exactly one entry for each event, with the event's own id, direction and text. */
  ghost predicate Consistent(t: Tables) {
    && t.mirror == Mirrors(t.rows)
    && DistinctIds(t.rows)
    && forall r | r in t.rows :: WellFormed(r)
  }

  /* ---- operations ---- */

  function IsReceived(): Row -> bool { (r: Row) => r.event.direction == "received" }
  function NotReceived(): Row -> bool { (r: Row) => r.event.direction != "received" }
  function MirrorNotReceived(): MirrorRow -> bool { (m: MirrorRow) => m.direction != "received" }
  function OtherId(id: int): Row -> bool { (r: Row) => r.id != id }
  function MirrorOtherId(id: int): MirrorRow -> bool { (m: MirrorRow) => m.eventId != IntToString(id) }

  function Normalized(d: Draft): Draft {
    d.(direction := Lower(Strip(d.direction)), pduType := Strip(d.pduType))
  }

  function Admit(d: Draft): Result<Draft> {
    var n := Normalized(d);
    if !IsDirection(n.direction) then Err("direction must be one of: received, sent, decoded.")
    else if n.pduType == [] then Err("pdu_type cannot be empty.")
    else Ok(n)
  }

  function Record(t: Tables, d: Draft, id: int): (Tables, Result<Row>) {
    match Admit(d)
    case Err(e) => (t, Err(e))
    case Ok(n) =>
      var row := Row(id, n);
      (Tables(t.rows + [row], t.mirror + [MirrorOf(row)]), Ok(row))
  }

  function ClearReceived(t: Tables): Tables {
    Tables(Filter(t.rows, NotReceived()), Filter(t.mirror, MirrorNotReceived()))
  }

  function Delete(t: Tables, id: int): (Tables, Result<int>) {
    if exists r | r in t.rows :: r.id == id && IsReceived()(r) then
      (Tables(Filter(t.rows, OtherId(id)), Filter(t.mirror, MirrorOtherId(id))), Ok(id))
    else (t, Err("Notification event is not a received trap."))
  }

  datatype Op = DoRecord(draft: Draft, id: int) | DoClearAll | DoClearReceived | DoDelete(id: int)

  /** The database refuses an id in use and rolls the insert back. */
  function Step(t: Tables, op: Op): Tables {
    match op
    case DoRecord(d, id) => if IdInUse(t.rows, id) then t else Record(t, d, id).0
    case DoClearAll => Tables([], [])
    case DoClearReceived => ClearReceived(t)
    case DoDelete(id) => Delete(t, id).0
  }

  function Run(t: Tables, ops: seq<Op>): Tables {
    if ops == [] then t else Step(Run(t, ops[..|ops| - 1]), ops[|ops| - 1])
  }

  /* ---- the mirror over every run ---- */

  lemma {:induction false} MirrorsOfFilter(rows: seq<Row>, keep: Row -> bool, keepMirror: MirrorRow -> bool)
    requires forall r | r in rows :: keep(r) <==> keepMirror(MirrorOf(r))
    ensures Mirrors(Filter(rows, keep)) == Filter(Mirrors(rows), keepMirror)
  {
    if rows != [] {
      var n := |rows| - 1;
      MirrorsOfFilter(rows[..n], keep, keepMirror);
      assert Mirrors(rows)[..n] == Mirrors(rows[..n]);
      assert rows[n] in rows;
    }
  }

  lemma {:induction false} FilterKeepsDistinctIds(rows: seq<Row>, keep: Row -> bool)
    requires DistinctIds(rows)
    ensures DistinctIds(Filter(rows, keep))
  {
    if rows != [] {
      var n := |rows| - 1;
      FilterKeepsDistinctIds(rows[..n], keep);
      FilterMembers(rows[..n], keep);
      var kept := Filter(rows[..n], keep);
      forall i | 0 <= i < |kept| ensures kept[i].id != rows[n].id {
        assert kept[i] in rows[..n];
      }
    }
  }

  lemma FilterKeepsConsistent(t: Tables, keep: Row -> bool, keepMirror: MirrorRow -> bool)
    requires Consistent(t)
    requires forall r | r in t.rows :: keep(r) <==> keepMirror(MirrorOf(r))
    ensures Consistent(Tables(Filter(t.rows, keep), Filter(t.mirror, keepMirror)))
  {
    MirrorsOfFilter(t.rows, keep, keepMirror);
    FilterKeepsDistinctIds(t.rows, keep);
    FilterMembers(t.rows, keep);
  }

  lemma SameIdText(r: Row, id: int)
    ensures OtherId(id)(r) <==> MirrorOtherId(id)(MirrorOf(r))
  {
    if IntToString(r.id) == IntToString(id) {
      EqualNumbers(r.id, id);
    }
  }

  lemma StepKeepsMirror(t: Tables, op: Op)
    requires Consistent(t)
    ensures Consistent(Step(t, op))
  {
    match op
    case DoRecord(d, id) =>
      if !IdInUse(t.rows, id) && Admit(d).Ok? {
        var row := Row(id, Admit(d).value);
        assert Mirrors(t.rows + [row]) == Mirrors(t.rows) + [MirrorOf(row)];
      }
    case DoClearAll =>
    case DoClearReceived =>
      FilterKeepsConsistent(t, NotReceived(), MirrorNotReceived());
    case DoDelete(id) =>
      forall r | r in t.rows ensures OtherId(id)(r) <==> MirrorOtherId(id)(MirrorOf(r)) {
        SameIdText(r, id);
      }
      FilterKeepsConsistent(t, OtherId(id), MirrorOtherId(id));
  }

  /** Over every run the mirror matches the event table exactly, even when ids are reused. */
  lemma {:induction false} RunsKeepMirror(t: Tables, ops: seq<Op>)
    requires Consistent(t)
    ensures Consistent(Run(t, ops))
  {
    if ops != [] {
      RunsKeepMirror(t, ops[..|ops| - 1]);
      StepKeepsMirror(Run(t, ops[..|ops| - 1]), ops[|ops| - 1]);
    }
  }

  /** One row fewer, and exactly the rows of other ids. */
  ghost predicate RemovesOnly(rows: seq<Row>, after: seq<Row>, id: int) {
    |after| == |rows| - 1 && forall r :: r in after <==> r in rows && r.id != id
  }

  lemma {:induction false} OneFewer(rows: seq<Row>, i: nat)
    requires DistinctIds(rows) && i < |rows|
    ensures |Filter(rows, OtherId(rows[i].id))| == |rows| - 1
  {
    var n := |rows| - 1;
    if i == n {
      FilterAll(rows[..n], OtherId(rows[n].id));
    } else {
      OneFewer(rows[..n], i);
    }
  }

  lemma WithoutIdRemovesOnly(rows: seq<Row>, r: Row)
    requires DistinctIds(rows) && r in rows
    ensures RemovesOnly(rows, Filter(rows, OtherId(r.id)), r.id)
  {
    var i :| 0 <= i < |rows| && rows[i] == r;
    FilterMembers(rows, OtherId(r.id));
    OneFewer(rows, i);
  }

  /** Deleting works exactly on received events, and removes that event and nothing else. */
  lemma DeleteRemovesExactlyThatEvent(t: Tables, id: int)
    requires Consistent(t)
    ensures var (after, r) := Delete(t, id);
      && (r.Ok? <==> exists row | row in t.rows :: row.id == id && row.event.direction == "received")
      && (r.Ok? ==> RemovesOnly(t.rows, after.rows, id))
      && (r.Err? ==> after == t)
  {
    if r :| r in t.rows && r.id == id && IsReceived()(r) {
      WithoutIdRemovesOnly(t.rows, r);
    }
  }

  lemma {:induction false} FilterAbsorbs(rows: seq<Row>, loose: Row -> bool, tight: Row -> bool)
    requires forall r | r in rows :: tight(r) ==> loose(r)
    ensures Filter(Filter(rows, loose), tight) == Filter(rows, tight)
  {
    if rows != [] {
      var n := |rows| - 1;
      FilterAbsorbs(rows[..n], loose, tight);
      assert rows[n] in rows;
      if loose(rows[n]) {
        FilterAppend(Filter(rows[..n], loose), rows[n], tight);
      } else {
        assert Filter(rows, loose) == Filter(rows[..n], loose);
        assert Filter(rows, tight) == Filter(rows[..n], tight);
      }
    }
  }

  lemma OneRowPerId(rows: seq<Row>, r: Row)
    requires DistinctIds(rows) && r in rows
    ensures forall x | x in rows && x.id == r.id :: x == r
  {
    forall x | x in rows && x.id == r.id ensures x == r {
      var i :| 0 <= i < |rows| && rows[i] == x;
      var j :| 0 <= j < |rows| && rows[j] == r;
    }
  }

  lemma StepKeepsOthers(t: Tables, op: Op)
    requires Consistent(t) && op != DoClearAll
    ensures Filter(t.rows, NotReceived()) <= Filter(Step(t, op).rows, NotReceived())
  {
    match op
    case DoRecord(d, id) =>
      if !IdInUse(t.rows, id) && Admit(d).Ok? {
        FilterAppend(t.rows, Row(id, Admit(d).value), NotReceived());
      }
    case DoClearReceived =>
      FilterAbsorbs(t.rows, NotReceived(), NotReceived());
    case DoDelete(id) =>
      if r :| r in t.rows && r.id == id && IsReceived()(r) {
        OneRowPerId(t.rows, r);
        FilterAbsorbs(t.rows, OtherId(id), NotReceived());
      }
  }

  /** Without a full clear, sent and decoded events are never lost, changed or reordered. */
  lemma {:induction false} OtherEventsSurvive(t: Tables, ops: seq<Op>)
    requires Consistent(t) && DoClearAll !in ops
    ensures Filter(t.rows, NotReceived()) <= Filter(Run(t, ops).rows, NotReceived())
  {
    if ops != [] {
      var n := |ops| - 1;
      var u := Run(t, ops[..n]);
      OtherEventsSurvive(t, ops[..n]);
      RunsKeepMirror(t, ops[..n]);
      StepKeepsOthers(u, ops[n]);
    }
  }

  /* ---- listing ---- */

  /** The database's own tests: LIKE on a column, and the full-text match on a mirror row. */
  datatype Engine = Engine(like: (string, string) -> bool, fts: (string, MirrorRow) -> bool)

  datatype Filters = Filters(
    q: string, direction: string, pduType: string, community: string, notification: string,
    sourceHost: string, targetHost: string, bundleSetId: Option<int>, from: Option<int>, until: Option<int>)

  datatype Listing = Listing(items: seq<Row>, total: nat)

  function NormalFilters(f: Filters): Filters {
    Filters(Lower(Strip(f.q)), Lower(Strip(f.direction)), Strip(f.pduType), Strip(f.community),
            Lower(Strip(f.notification)), Lower(Strip(f.sourceHost)), Lower(Strip(f.targetHost)),
            f.bundleSetId, f.from, f.until)
  }

  predicate Like(e: Engine, needle: string, value: Option<string>) {
    value.Some? && e.like(needle, value.value)
  }

  predicate MatchesQuery(e: Engine, q: string, d: Draft) {
    || Like(e, q, d.name) || Like(e, q, d.oid) || Like(e, q, d.community)
    || Like(e, q, d.sourceHost) || Like(e, q, d.targetHost)
  }

  predicate PassesColumns(f: Filters, d: Draft) {
    && (f.bundleSetId.Some? ==> d.bundleSetId == f.bundleSetId)
    && (f.direction != "" ==> d.direction == f.direction)
    && (f.pduType != "" ==> d.pduType == f.pduType)
    && (f.from.Some? ==> d.recordedAt >= f.from.value)
    && (f.until.Some? ==> d.recordedAt <= f.until.value)
  }

  predicate PassesText(e: Engine, f: Filters, d: Draft) {
    && (f.community != "" ==> Like(e, f.community, d.community))
    && (f.notification != "" ==> Like(e, f.notification, d.name) || Like(e, f.notification, d.oid))
    && (f.sourceHost != "" ==> Like(e, f.sourceHost, d.sourceHost))
    && (f.targetHost != "" ==> Like(e, f.targetHost, d.targetHost))
  }

  function BundleIs(f: Filters): Row -> bool { (r: Row) => r.event.bundleSetId == f.bundleSetId }
  function DirectionIs(f: Filters): Row -> bool { (r: Row) => r.event.direction == f.direction }
  function PduTypeIs(f: Filters): Row -> bool { (r: Row) => r.event.pduType == f.pduType }
  function NotBefore(f: Filters): Row -> bool { (r: Row) => f.from.Some? && r.event.recordedAt >= f.from.value }
  function NotAfter(f: Filters): Row -> bool { (r: Row) => f.until.Some? && r.event.recordedAt <= f.until.value }
  function CommunityLike(e: Engine, f: Filters): Row -> bool { (r: Row) => Like(e, f.community, r.event.community) }
  function SourceLike(e: Engine, f: Filters): Row -> bool { (r: Row) => Like(e, f.sourceHost, r.event.sourceHost) }
  function TargetLike(e: Engine, f: Filters): Row -> bool { (r: Row) => Like(e, f.targetHost, r.event.targetHost) }

  function NotificationLike(e: Engine, f: Filters): Row -> bool {
    (r: Row) => Like(e, f.notification, r.event.name) || Like(e, f.notification, r.event.oid)
  }

  function QueryMatches(e: Engine, f: Filters, hits: set<int>): Row -> bool {
    (r: Row) => MatchesQuery(e, f.q, r.event) || r.id in hits
  }

  /** Every filter but the free-text query. */
  predicate PassesFields(e: Engine, f: Filters, d: Draft) {
    PassesColumns(f, d) && PassesText(e, f, d)
  }

  function Wanted(e: Engine, f: Filters, hits: set<int>): Row -> bool {
    (r: Row) => PassesFields(e, f, r.event) && (f.q != "" ==> MatchesQuery(e, f.q, r.event) || r.id in hits)
  }

  function All(): Row -> bool { (r: Row) => true }

  function Where(stmt: Row -> bool, condition: Row -> bool): Row -> bool {
    (r: Row) => stmt(r) && condition(r)
  }

  function Hits(e: Engine, q: string): MirrorRow -> bool {
    (m: MirrorRow) => e.fts(q, m)
  }

  /** The ids the mirror reports, read back from their text. */
  function SearchIds(mirror: seq<MirrorRow>, hit: MirrorRow -> bool): set<int> {
    set m | m in mirror && hit(m) && ParseInt(m.eventId).Some? :: ParseInt(m.eventId).value
  }

  predicate NewestFirst(a: Row, b: Row) {
    a.event.recordedAt > b.event.recordedAt || (a.event.recordedAt == b.event.recordedAt && a.id >= b.id)
  }

  function Page<T>(all: seq<T>, limit: nat, offset: nat): seq<T> {
    if offset >= |all| then []
    else if offset + limit >= |all| then all[offset..]
    else all[offset..offset + limit]
  }

  function Ordered(t: Tables, e: Engine, f: Filters): seq<Row> {
    var hits := if f.q == "" then {} else SearchIds(t.mirror, Hits(e, f.q));
    SortBy(Filter(t.rows, Wanted(e, f, hits)), NewestFirst)
  }

  predicate ValidDirection(f: Filters) {
    NormalFilters(f).direction == "" || IsDirection(NormalFilters(f).direction)
  }

  function Listed(t: Tables, e: Engine, f: Filters, limit: int, offset: int): Result<Listing> {
    if limit < 1 || limit > 500 then Err("limit must be between 1 and 500.")
    else if offset < 0 then Err("offset cannot be negative.")
    else if !ValidDirection(f) then Err("direction must be one of: received, sent, decoded.")
    else
      var all := Ordered(t, e, NormalFilters(f));
      Ok(Listing(Page(all, limit, offset), |all|))
  }

  lemma {:induction false} FilterSame(rows: seq<Row>, p: Row -> bool, q: Row -> bool)
    requires forall r | r in rows :: p(r) <==> q(r)
    ensures Filter(rows, p) == Filter(rows, q)
  {
    if rows != [] {
      assert rows[|rows| - 1] in rows;
      FilterSame(rows[..|rows| - 1], p, q);
    }
  }

  /** An event as the listing should select it, from the event alone. */
  function Selected(e: Engine, f: Filters): Row -> bool {
    (r: Row) => PassesFields(e, f, r.event)
      && (f.q != "" ==> MatchesQuery(e, f.q, r.event) || e.fts(f.q, MirrorOf(r)))
  }

  /** A search reports exactly the ids of the events whose own text matches: no orphan, none missed. */
  lemma SearchFindsExactlyMatchingEvents(t: Tables, hit: MirrorRow -> bool, id: int)
    requires Consistent(t)
    ensures id in SearchIds(t.mirror, hit) <==> exists r | r in t.rows :: r.id == id && hit(MirrorOf(r))
  {
    if id in SearchIds(t.mirror, hit) {
      var m :| m in t.mirror && hit(m) && ParseInt(m.eventId) == Some(id);
      var i :| 0 <= i < |t.mirror| && t.mirror[i] == m;
      assert m == MirrorOf(t.rows[i]);
      ParseIntOfInt(t.rows[i].id);
      assert t.rows[i] in t.rows;
    }
    if r :| r in t.rows && r.id == id && hit(MirrorOf(r)) {
      var i :| 0 <= i < |t.rows| && t.rows[i] == r;
      ParseIntOfInt(id);
      assert t.mirror[i] == MirrorOf(r);
    }
  }

  /** The listing is the naive one over the event table: the mirror adds nothing and hides nothing. */
  lemma ListingSelectsFromEvents(t: Tables, e: Engine, f: Filters)
    requires Consistent(t)
    ensures Ordered(t, e, f) == SortBy(Filter(t.rows, Selected(e, f)), NewestFirst)
  {
    var hits := if f.q == "" then {} else SearchIds(t.mirror, Hits(e, f.q));
    forall r | r in t.rows ensures Wanted(e, f, hits)(r) <==> Selected(e, f)(r) {
      if f.q != "" {
        SearchFindsExactlyMatchingEvents(t, Hits(e, f.q), r.id);
        OneRowPerId(t.rows, r);
      }
    }
    FilterSame(t.rows, Wanted(e, f, hits), Selected(e, f));
  }

  lemma SortIgnoresOrder(a: seq<Row>, b: seq<Row>)
    requires DistinctIds(a) && multiset(a) == multiset(b)
    ensures SortBy(a, NewestFirst) == SortBy(b, NewestFirst)
  {
    SortByCorrect(a, NewestFirst);
    SortByCorrect(b, NewestFirst);
    var sorted := SortBy(a, NewestFirst);
    forall x, y | x in sorted && y in sorted && NewestFirst(x, y) && NewestFirst(y, x) ensures x == y {
      assert x in multiset(a) && y in multiset(a);
      OneRowPerId(a, y);
    }
    SortedIsUnique(sorted, SortBy(b, NewestFirst), NewestFirst);
  }

  lemma FilterIgnoresOrder(a: seq<Row>, b: seq<Row>, test: Row -> bool)
    requires multiset(a) == multiset(b)
    ensures multiset(Filter(a, test)) == multiset(Filter(b, test))
  {
    FilterMembers(a, test);
    FilterMembers(b, test);
    forall r ensures multiset(Filter(a, test))[r] == multiset(Filter(b, test))[r] {}
  }

  /** The listing depends on which events are stored, not on how the table orders them. */
  lemma ListingIgnoresStorageOrder(t: Tables, u: Tables, e: Engine, f: Filters)
    requires Consistent(t) && Consistent(u) && multiset(t.rows) == multiset(u.rows)
    ensures Ordered(t, e, f) == Ordered(u, e, f)
  {
    ListingSelectsFromEvents(t, e, f);
    ListingSelectsFromEvents(u, e, f);
    FilterKeepsDistinctIds(t.rows, Selected(e, f));
    FilterIgnoresOrder(t.rows, u.rows, Selected(e, f));
    SortIgnoresOrder(Filter(t.rows, Selected(e, f)), Filter(u.rows, Selected(e, f)));
  }

  /** The items of page k. */
  function PageItems(t: Tables, e: Engine, f: Filters, limit: int): nat -> seq<Row> {
    (k: nat) => match Listed(t, e, f, limit, k * limit) case Ok(page) => page.items case Err(_) => []
  }

  /** The first n pages, one after another. */
  function Concatenated<T>(pages: nat -> seq<T>, n: nat): seq<T> {
    if n == 0 then [] else Concatenated(pages, n - 1) + pages(n - 1)
  }

  lemma JoinStep<T>(all: seq<T>, front: seq<T>, page: seq<T>, limit: nat, offset: nat, next: nat)
    requires front == Page(all, offset, 0) && page == Page(all, limit, offset) && next == offset + limit
    ensures front + page == Page(all, next, 0)
  {}

  lemma NextOffset(k: nat, limit: nat)
    ensures k * limit + limit == (k + 1) * limit
  {}

  lemma {:induction false} PagesJoin<T>(all: seq<T>, pages: nat -> seq<T>, limit: nat, n: nat)
    requires forall k: nat :: pages(k) == Page(all, limit, k * limit)
    ensures Concatenated(pages, n) == Page(all, n * limit, 0)
  {
    if n > 0 {
      var k := n - 1;
      PagesJoin(all, pages, limit, k);
      NextOffset(k, limit);
      JoinStep(all, Concatenated(pages, k), pages(k), limit, k * limit, n * limit);
    }
  }

  lemma PageItemsAre(t: Tables, e: Engine, f: Filters, limit: nat)
    requires 1 <= limit <= 500 && ValidDirection(f)
    ensures forall k: nat :: PageItems(t, e, f, limit)(k) == Page(Ordered(t, e, NormalFilters(f)), limit, k * limit)
  {}

  lemma TwiceInSequence<T>(s: seq<T>, i: nat, j: nat)
    requires i < j < |s| && s[i] == s[j]
    ensures multiset(s)[s[i]] >= 2
  {
    assert s == s[..j] + s[j..];
    assert s[i] in s[..j] && s[i] in s[j..];
    assert multiset(s) == multiset(s[..j]) + multiset(s[j..]);
  }

  lemma {:induction false} OnceWhenDistinct(rows: seq<Row>, r: Row)
    requires DistinctIds(rows)
    ensures multiset(rows)[r] <= 1
  {
    if rows != [] {
      var n := |rows| - 1;
      OnceWhenDistinct(rows[..n], r);
      assert rows == rows[..n] + [rows[n]];
      assert rows[n] !in rows[..n];
    }
  }

  lemma PermutationKeepsDistinctIds(a: seq<Row>, b: seq<Row>)
    requires DistinctIds(a) && multiset(a) == multiset(b)
    ensures DistinctIds(b)
  {
    forall i, j | 0 <= i < j < |b| ensures b[i].id != b[j].id {
      if b[i].id == b[j].id {
        assert b[i] in multiset(a) && b[j] in multiset(a);
        OneRowPerId(a, b[i]);
        TwiceInSequence(b, i, j);
        OnceWhenDistinct(a, b[i]);
        assert false;
      }
    }
  }

  /** Enough pages, concatenated, list each selected event exactly once, newest first with ties
      broken by the higher id; the reported total is their number. */
  lemma PagesListEachEventOnce(t: Tables, e: Engine, f: Filters, limit: nat, n: nat)
    requires Consistent(t) && 1 <= limit <= 500 && ValidDirection(f)
    requires n * limit >= |Ordered(t, e, NormalFilters(f))|
    ensures var pages := Concatenated(PageItems(t, e, f, limit), n);
      && multiset(pages) == multiset(Filter(t.rows, Selected(e, NormalFilters(f))))
      && SortedBy(pages, NewestFirst) && DistinctIds(pages)
      && Listed(t, e, f, limit, 0).value.total == |pages|
  {
    var g := NormalFilters(f);
    PageItemsAre(t, e, f, limit);
    PagesJoin(Ordered(t, e, g), PageItems(t, e, f, limit), limit, n);
    ListingSelectsFromEvents(t, e, g);
    var chosen := Filter(t.rows, Selected(e, g));
    SortByCorrect(chosen, NewestFirst);
    FilterKeepsDistinctIds(t.rows, Selected(e, g));
    PermutationKeepsDistinctIds(chosen, SortBy(chosen, NewestFirst));
  }

  /* ---- records and listings, field by field ---- */

  /** An event is admitted exactly under one of the three directions and a PDU type, blanks and, for
      the direction, capitals aside; it is stored with those normalized and nothing else changed. */
  lemma AdmittedExactlyWhen(d: Draft)
    ensures var direction, pduType := Lower(Strip(d.direction)), Strip(d.pduType);
      && (Admit(d).Ok? <==> (direction == "received" || direction == "sent" || direction == "decoded") && pduType != "")
      && (Admit(d).Ok? ==> Admit(d).value == d.(direction := direction, pduType := pduType))
  {}

  /** The mirror row of an event: its id and its texts, a missing one as "". */
  lemma MirrorFields(r: Row)
    ensures var m := MirrorOf(r);
      && m.eventId == IntToString(r.id) && m.direction == r.event.direction && m.pduType == r.event.pduType
      && m.eventText == r.event.eventText
      && (r.event.community == if m.community == "" && r.event.community.None? then None else Some(m.community))
      && (r.event.sourceHost == if m.sourceHost == "" && r.event.sourceHost.None? then None else Some(m.sourceHost))
      && (r.event.targetHost == if m.targetHost == "" && r.event.targetHost.None? then None else Some(m.targetHost))
      && (r.event.name == if m.name == "" && r.event.name.None? then None else Some(m.name))
      && (r.event.oid == if m.oid == "" && r.event.oid.None? then None else Some(m.oid))
      && (r.event.description == if m.description == "" && r.event.description.None? then None else Some(m.description))
  {}

  lemma ClearReceivedByField(t: Tables)
    requires Consistent(t)
    ensures forall r :: r in ClearReceived(t).rows <==> r in t.rows && r.event.direction != "received"
    ensures forall m :: m in ClearReceived(t).mirror <==> m in t.mirror && m.direction != "received"
  {
    FilterMembers(t.rows, NotReceived());
    FilterMembers(t.mirror, MirrorNotReceived());
  }

  /** A text column contains the filter's text, as the database's LIKE sees it. */
  predicate Contains(e: Engine, column: Option<string>, text: string) {
    match column case None => false case Some(value) => e.like(text, value)
  }

  lemma SelectedMeans(e: Engine, f: Filters, r: Row)
    ensures Selected(e, f)(r) <==>
      && PassesColumns(f, r.event) && PassesText(e, f, r.event)
      && (f.q != "" ==> MatchesQuery(e, f.q, r.event) || e.fts(f.q, MirrorOf(r)))
  {
    assert PassesFields(e, f, r.event) <==> PassesColumns(f, r.event) && PassesText(e, f, r.event);
  }

  /** What each filter demands of an event. */
  lemma FiltersDemand(e: Engine, f: Filters, r: Row)
    ensures Selected(e, f)(r) ==>
      && (f.direction == "" || r.event.direction == f.direction) && (f.pduType == "" || r.event.pduType == f.pduType)
      && (f.bundleSetId == None || r.event.bundleSetId == f.bundleSetId)
      && (f.from.Some? ==> f.from.value <= r.event.recordedAt) && (f.until.Some? ==> r.event.recordedAt <= f.until.value)
      && (f.community == "" || Contains(e, r.event.community, f.community))
      && (f.notification == "" || Contains(e, r.event.name, f.notification) || Contains(e, r.event.oid, f.notification))
      && (f.sourceHost == "" || Contains(e, r.event.sourceHost, f.sourceHost))
      && (f.targetHost == "" || Contains(e, r.event.targetHost, f.targetHost))
  {
    SelectedMeans(e, f, r);
  }

  /** A free-text query looks at five columns and the event's mirror row. */
  lemma QueryDemands(e: Engine, f: Filters, r: Row)
    requires f.q != "" && Selected(e, f)(r)
    ensures e.fts(f.q, MirrorOf(r))
      || Contains(e, r.event.name, f.q) || Contains(e, r.event.oid, f.q) || Contains(e, r.event.community, f.q)
      || Contains(e, r.event.sourceHost, f.q) || Contains(e, r.event.targetHost, f.q)
  {
    SelectedMeans(e, f, r);
  }

  const NO_FILTERS := Filters("", "", "", "", "", "", "", None, None, None)

  /** No filter selects everything, and one filter alone selects what it asks for. */
  lemma SingleColumns(e: Engine, r: Row, text: string, t: int)
    requires text != ""
    ensures Selected(e, NO_FILTERS)(r)
    ensures Selected(e, NO_FILTERS.(direction := text))(r) <==> r.event.direction == text
    ensures Selected(e, NO_FILTERS.(pduType := text))(r) <==> r.event.pduType == text
    ensures Selected(e, NO_FILTERS.(bundleSetId := Some(t)))(r) <==> r.event.bundleSetId == Some(t)
    ensures Selected(e, NO_FILTERS.(from := Some(t)))(r) <==> t <= r.event.recordedAt
    ensures Selected(e, NO_FILTERS.(until := Some(t)))(r) <==> r.event.recordedAt <= t
  {
    SelectedMeans(e, NO_FILTERS, r);
    SelectedMeans(e, NO_FILTERS.(direction := text), r);
    SelectedMeans(e, NO_FILTERS.(pduType := text), r);
    SelectedMeans(e, NO_FILTERS.(bundleSetId := Some(t)), r);
    SelectedMeans(e, NO_FILTERS.(from := Some(t)), r);
    SelectedMeans(e, NO_FILTERS.(until := Some(t)), r);
  }

  lemma SingleTexts(e: Engine, r: Row, text: string)
    requires text != ""
    ensures Selected(e, NO_FILTERS.(community := text))(r) <==> Contains(e, r.event.community, text)
    ensures Selected(e, NO_FILTERS.(sourceHost := text))(r) <==> Contains(e, r.event.sourceHost, text)
    ensures Selected(e, NO_FILTERS.(targetHost := text))(r) <==> Contains(e, r.event.targetHost, text)
    ensures Selected(e, NO_FILTERS.(notification := text))(r) <==>
      Contains(e, r.event.name, text) || Contains(e, r.event.oid, text)
  {
    SelectedMeans(e, NO_FILTERS.(community := text), r);
    SelectedMeans(e, NO_FILTERS.(sourceHost := text), r);
    SelectedMeans(e, NO_FILTERS.(targetHost := text), r);
    SelectedMeans(e, NO_FILTERS.(notification := text), r);
  }

  lemma SingleQuery(e: Engine, r: Row, text: string)
    requires text != ""
    ensures Selected(e, NO_FILTERS.(q := text))(r) <==>
      e.fts(text, MirrorOf(r))
      || Contains(e, r.event.name, text) || Contains(e, r.event.oid, text) || Contains(e, r.event.community, text)
      || Contains(e, r.event.sourceHost, text) || Contains(e, r.event.targetHost, text)
  {
    SelectedMeans(e, NO_FILTERS.(q := text), r);
  }

  /** A listing is refused exactly for a limit outside 1 to 500, a negative offset or an unknown
      direction. */
  lemma ListingIsRefusedExactlyWhen(t: Tables, e: Engine, f: Filters, limit: int, offset: int)
    ensures var direction := Lower(Strip(f.direction));
      Listed(t, e, f, limit, offset).Err? <==>
        limit < 1 || limit > 500 || offset < 0
        || !(direction == "" || direction == "received" || direction == "sent" || direction == "decoded")
  {}

  /** The filters are stripped, and all but the PDU type and the community compared in small letters. */
  lemma NormalizedFilters(f: Filters)
    ensures var g := NormalFilters(f);
      && g.q == Lower(Strip(f.q)) && g.direction == Lower(Strip(f.direction)) && g.notification == Lower(Strip(f.notification))
      && g.sourceHost == Lower(Strip(f.sourceHost)) && g.targetHost == Lower(Strip(f.targetHost))
      && g.pduType == Strip(f.pduType) && g.community == Strip(f.community)
      && g.bundleSetId == f.bundleSetId && g.from == f.from && g.until == f.until
  {}

  /** A page holds the entries of the ordered selection from its offset on, at most the limit. */
  lemma PageByIndex(t: Tables, e: Engine, f: Filters, limit: int, offset: int)
    requires Listed(t, e, f, limit, offset).Ok?
    ensures var all, page := Ordered(t, e, NormalFilters(f)), Listed(t, e, f, limit, offset).value;
      && page.total == |all|
      && |page.items| == (if offset >= |all| then 0 else if |all| - offset < limit then |all| - offset else limit)
      && forall i | 0 <= i < |page.items| :: page.items[i] == all[offset + i]
  {}

  /** The selection is in order of time, newest first, and of id within one time. */
  lemma NewestComesFirst(t: Tables, e: Engine, f: Filters)
    requires Consistent(t)
    ensures var all := Ordered(t, e, f);
      forall i, j | 0 <= i < j < |all| ::
        all[i].event.recordedAt > all[j].event.recordedAt
        || (all[i].event.recordedAt == all[j].event.recordedAt && all[i].id > all[j].id)
  {
    var chosen := Filter(t.rows, Selected(e, f));
    ListingSelectsFromEvents(t, e, f);
    SortByCorrect(chosen, NewestFirst);
    FilterKeepsDistinctIds(t.rows, Selected(e, f));
    PermutationKeepsDistinctIds(chosen, SortBy(chosen, NewestFirst));
  }

  /* ---- the service ---- */

  /** Adds a condition when its filter is given. */
  method Narrow(stmt: Row -> bool, given: bool, condition: Row -> bool) returns (narrowed: Row -> bool)
    ensures forall r :: narrowed(r) <==> stmt(r) && (given ==> condition(r))
  {
    narrowed := if given then Where(stmt, condition) else stmt;
  }

  method NarrowByColumns(g: Filters, before: Row -> bool) returns (stmt: Row -> bool)
    ensures forall r :: stmt(r) <==> before(r) && PassesColumns(g, r.event)
  {
    stmt := Narrow(before, g.bundleSetId.Some?, BundleIs(g));
    stmt := Narrow(stmt, g.direction != "", DirectionIs(g));
    stmt := Narrow(stmt, g.pduType != "", PduTypeIs(g));
    stmt := Narrow(stmt, g.from.Some?, NotBefore(g));
    stmt := Narrow(stmt, g.until.Some?, NotAfter(g));
  }

  method NarrowByText(e: Engine, g: Filters, before: Row -> bool) returns (stmt: Row -> bool)
    ensures forall r :: stmt(r) <==> before(r) && PassesText(e, g, r.event)
  {
    stmt := Narrow(before, g.community != "", CommunityLike(e, g));
    stmt := Narrow(stmt, g.notification != "", NotificationLike(e, g));
    stmt := Narrow(stmt, g.sourceHost != "", SourceLike(e, g));
    stmt := Narrow(stmt, g.targetHost != "", TargetLike(e, g));
  }

  /** Adds each given filter to the query in turn; together they select exactly the wanted rows. */
  method BuildQuery(e: Engine, g: Filters, hits: set<int>) returns (stmt: Row -> bool)
    ensures forall r :: stmt(r) <==> Wanted(e, g, hits)(r)
  {
    stmt := NarrowByColumns(g, All());
    stmt := NarrowByText(e, g, stmt);
    stmt := Narrow(stmt, g.q != "", QueryMatches(e, g, hits));
  }

  class EventHistoryService {
    var rows: seq<Row>
    var mirror: seq<MirrorRow>

    function Contents(): Tables
      reads this
    {
      Tables(rows, mirror)
    }

    /** The database picks the id: any that no row uses, perhaps one freed by a deletion. */
    method RecordEvent(draft: Draft, id: int) returns (r: Result<Row>)
      requires !IdInUse(rows, id)
      modifies this
      ensures (Contents(), r) == Record(old(Contents()), draft, id)
      ensures old(Consistent(Contents())) ==> Consistent(Contents())
    {
      ghost var before := Contents();
      var direction := Lower(Strip(draft.direction));
      if !IsDirection(direction) {
        return Err("direction must be one of: received, sent, decoded.");
      }
      var pduType := Strip(draft.pduType);
      if pduType == [] {
        return Err("pdu_type cannot be empty.");
      }
      var row := Row(id, draft.(direction := direction, pduType := pduType));
      rows := rows + [row];
      mirror := mirror + [MirrorOf(row)];
      r := Ok(row);
      if Consistent(before) {
        StepKeepsMirror(before, DoRecord(draft, id));
      }
    }

    method ClearEvents() returns (deleted: nat)
      modifies this
      ensures Contents() == Tables([], []) && deleted == |old(rows)|
    {
      deleted := |rows|;
      rows := [];
      mirror := [];
    }

    method ClearReceivedEvents()
      modifies this
      ensures Contents() == ClearReceived(old(Contents()))
      ensures old(Consistent(Contents())) ==> Consistent(Contents())
    {
      ghost var before := Contents();
      rows := Filter(rows, NotReceived());
      mirror := Filter(mirror, MirrorNotReceived());
      if Consistent(before) {
        StepKeepsMirror(before, DoClearReceived);
      }
    }

    method DeleteEvent(id: int) returns (r: Result<int>)
      modifies this
      ensures (Contents(), r) == Delete(old(Contents()), id)
      ensures old(Consistent(Contents())) ==> Consistent(Contents())
    {
      ghost var before := Contents();
      if !exists row | row in rows :: row.id == id && IsReceived()(row) {
        return Err("Notification event is not a received trap.");
      }
      rows := Filter(rows, OtherId(id));
      mirror := Filter(mirror, MirrorOtherId(id));
      r := Ok(id);
      if Consistent(before) {
        StepKeepsMirror(before, DoDelete(id));
      }
    }

    /** Lists one page of the selected events. */
    method ListEvents(e: Engine, f: Filters, limit: int, offset: int) returns (r: Result<Listing>)
      ensures r == Listed(Contents(), e, f, limit, offset)
    {
      if limit < 1 || limit > 500 {
        return Err("limit must be between 1 and 500.");
      }
      if offset < 0 {
        return Err("offset cannot be negative.");
      }
      var g := NormalFilters(f);
      if g.direction != "" && !IsDirection(g.direction) {
        return Err("direction must be one of: received, sent, decoded.");
      }
      var hits := if g.q == "" then {} else SearchIds(mirror, Hits(e, g.q));
      var stmt := BuildQuery(e, g, hits);
      FilterSame(rows, stmt, Wanted(e, g, hits));
      var all := SortBy(Filter(rows, stmt), NewestFirst);
      r := Ok(Listing(Page(all, limit, offset), |all|));
    }
  }
}
