/** The upload dependency planner: which uploaded MIBs can be compiled now, and why the
    others cannot. */
module UploadPlanner {
  import opened Text
  import opened Lists

  /** One analysed file: its declared (unstripped) MIB name, whether its extension is
      supported, and its IMPORTS. */
  datatype Entry = Entry(mibName: string, valid: bool, imports: seq<string>)

  const BASE_IMPORT_MODULES: set<string> :=
    {"RFC-1212", "RFC-1215", "RFC1155-SMI", "SNMPv2-SMI-v1", "SNMPv2-TC-v1"}

  function NameOf(e: Entry): string {
    Strip(e.mibName)
  }

  /** The entries that can make a name ready. */
  predicate Usable(e: Entry) {
    e.valid && NameOf(e) != []
  }

  function BatchNames(batch: seq<Entry>): set<string> {
    set e | e in batch && e.mibName != [] :: e.mibName
  }

  /** Modules that the batch does not replace, plus the built-in base modules. */
  function Stable(batch: seq<Entry>, available: set<string>): set<string> {
    (available - BatchNames(batch)) + BASE_IMPORT_MODULES
  }

  predicate Unblocked(e: Entry, stable: set<string>, ready: set<string>) {
    forall m | m in e.imports :: m in stable || m in ready
  }

  /** Closed under "a usable entry with no blockers makes its name ready". */
  ghost predicate Closed(batch: seq<Entry>, stable: set<string>, names: set<string>) {
    forall e | e in batch && Usable(e) && Unblocked(e, stable, names) :: NameOf(e) in names
  }

  function UsableNames(batch: seq<Entry>): set<string> {
    set e | e in batch && Usable(e) :: NameOf(e)
  }

  /** The independent definition of readiness: the names in every closed set. */
  ghost function ReadySet(batch: seq<Entry>, stable: set<string>): set<string> {
    set n | n in UsableNames(batch) && forall x: set<string> :: Closed(batch, stable, x) ==> n in x
  }

  /* ---- the readiness loop ---- */

  lemma ReadySetIsLeastClosed(batch: seq<Entry>, stable: set<string>)
    ensures Closed(batch, stable, ReadySet(batch, stable))
    ensures forall x: set<string> | Closed(batch, stable, x) :: ReadySet(batch, stable) <= x
  {
    forall e | e in batch && Usable(e) && Unblocked(e, stable, ReadySet(batch, stable))
      ensures NameOf(e) in ReadySet(batch, stable)
    {
      forall x: set<string> | Closed(batch, stable, x) ensures NameOf(e) in x {
        assert Unblocked(e, stable, x);
      }
    }
  }

  /** Repeated passes over the batch until nothing changes. */
  method ReadyNames(batch: seq<Entry>, stable: set<string>) returns (ready: set<string>)
    ensures ready == ReadySet(batch, stable)
  {
    ready := {};
    var changed := true;
    while changed
      invariant ready <= UsableNames(batch)
      invariant forall x: set<string> | Closed(batch, stable, x) :: ready <= x
      invariant !changed ==> Closed(batch, stable, ready)
      decreases UsableNames(batch) - ready, changed
    {
      changed := false;
      ghost var before := ready;
      for i := 0 to |batch|
        invariant ready <= UsableNames(batch)
        invariant forall x: set<string> | Closed(batch, stable, x) :: ready <= x
        invariant before <= ready && (changed <==> before != ready)
        invariant !changed ==> forall j | 0 <= j < i ::
          Usable(batch[j]) && Unblocked(batch[j], stable, ready) ==> NameOf(batch[j]) in ready
      {
        var name := NameOf(batch[i]);
        if !batch[i].valid || name == [] || name in ready {
          continue;
        }
        if !Unblocked(batch[i], stable, ready) {
          continue;
        }
        forall x: set<string> | Closed(batch, stable, x) ensures name in x {
          assert Unblocked(batch[i], stable, x);
        }
        ready := ready + {name};
        changed := true;
      }
    }
    ReadySetIsLeastClosed(batch, stable);
  }

  /* ---- the report of one batch ---- */

  datatype FileReport = FileReport(missingDeps: seq<string>, partialBlockers: seq<string>, readyForPartial: bool)

  datatype Analysis = Analysis(
    files: seq<FileReport>,
    readyMibs: seq<string>,
    blockedMibs: seq<string>,
    globalMissing: set<string>,
    allValid: bool)

  function NotIn(drop: set<string>): string -> bool {
    (m: string) => m !in drop
  }

  function Keep(names: seq<string>, drop: set<string>): (r: seq<string>)
    ensures forall m :: m in r <==> m in names && m !in drop
  {
    FilterMembers(names, NotIn(drop));
    Filter(names, NotIn(drop))
  }

  predicate ReadyEntry(e: Entry, ready: set<string>) {
    e.valid && e.mibName != [] && e.mibName in ready && NameOf(e) != []
  }

  predicate BlockedEntry(e: Entry, ready: set<string>) {
    e.valid && NameOf(e) != [] && e.mibName !in ready
  }

  function ReadyMibs(batch: seq<Entry>, ready: set<string>): seq<string> {
    if batch == [] then []
    else (if ReadyEntry(batch[0], ready) then [batch[0].mibName] else []) + ReadyMibs(batch[1..], ready)
  }

  function BlockedMibs(batch: seq<Entry>, ready: set<string>): seq<string> {
    if batch == [] then []
    else (if BlockedEntry(batch[0], ready) then [batch[0].mibName] else []) + BlockedMibs(batch[1..], ready)
  }

  function ValidMibs(batch: seq<Entry>): seq<string> {
    if batch == [] then []
    else (if Usable(batch[0]) then [batch[0].mibName] else []) + ValidMibs(batch[1..])
  }

  /** Every module someone supplies: available, in the batch, or built in. */
  function Known(batch: seq<Entry>, available: set<string>): set<string> {
    available + BatchNames(batch) + BASE_IMPORT_MODULES
  }

  predicate Missing(batch: seq<Entry>, available: set<string>, m: string) {
    m !in Known(batch, available)
  }

  /** What a report says of its entry. */
  predicate Reports(r: FileReport, e: Entry, known: set<string>, stable: set<string>, ready: set<string>) {
    && r.missingDeps == Keep(e.imports, known)
    && r.partialBlockers == Keep(e.imports, stable + ready)
    && (r.partialBlockers == [] <==> Unblocked(e, stable, ready))
    && (r.readyForPartial <==> e.valid && e.mibName != [] && e.mibName in ready)
  }

  function ImportsOutside(entries: seq<Entry>, known: set<string>): set<string> {
    set e, m | e in entries && m in e.imports && m !in known :: m
  }

  function MissingImports(batch: seq<Entry>, available: set<string>): set<string> {
    ImportsOutside(batch, Known(batch, available))
  }

  method ReportEntry(e: Entry, known: set<string>, stable: set<string>, ready: set<string>) returns (r: FileReport)
    ensures Reports(r, e, known, stable, ready)
  {
    var missingDeps, partialBlockers := Keep(e.imports, known), Keep(e.imports, stable + ready);
    assert partialBlockers != [] ==> partialBlockers[0] in partialBlockers;
    r := FileReport(missingDeps, partialBlockers, e.valid && e.mibName != [] && e.mibName in ready);
  }

  function ReportedMissing(files: seq<FileReport>): set<string> {
    set r, m | r in files && m in r.missingDeps :: m
  }

  predicate AllReported(files: seq<FileReport>, batch: seq<Entry>, known: set<string>, stable: set<string>, ready: set<string>) {
    |files| == |batch| && forall i | 0 <= i < |batch| :: Reports(files[i], batch[i], known, stable, ready)
  }

  lemma ReportedMissingIsOutside(
      files: seq<FileReport>, batch: seq<Entry>, known: set<string>, stable: set<string>, ready: set<string>)
    requires AllReported(files, batch, known, stable, ready)
    ensures ReportedMissing(files) == ImportsOutside(batch, known)
  {}

  /** The pass that writes the reports. */
  method ReportAll(batch: seq<Entry>, known: set<string>, stable: set<string>, ready: set<string>)
    returns (files: seq<FileReport>, allValid: bool)
    ensures AllReported(files, batch, known, stable, ready)
    ensures allValid <==> forall e | e in batch :: e.valid
  {
    files, allValid := [], true;
    for i := 0 to |batch|
      invariant |files| == i
      invariant forall k | 0 <= k < i :: Reports(files[k], batch[k], known, stable, ready)
      invariant allValid <==> forall k | 0 <= k < i :: batch[k].valid
    {
      var report := ReportEntry(batch[i], known, stable, ready);
      allValid := allValid && batch[i].valid;
      files := files + [report];
    }
  }

  /* ---- the report in the batch's own terms ---- */

  /** The modules that every SMIv1 compiler brings along. */
  predicate IsBase(m: string) {
    m == "RFC-1212" || m == "RFC-1215" || m == "RFC1155-SMI" || m == "SNMPv2-SMI-v1" || m == "SNMPv2-TC-v1"
  }

  lemma BaseModules(m: string)
    ensures m in BASE_IMPORT_MODULES <==> IsBase(m)
  {}

  /** Some file of the batch declares the module. */
  predicate Declared(batch: seq<Entry>, m: string) {
    m != [] && exists e | e in batch :: e.mibName == m
  }

  /** An import that is neither available nor declared in the batch nor built in. */
  predicate Unsupplied(batch: seq<Entry>, available: set<string>, m: string) {
    m !in available && !Declared(batch, m) && !IsBase(m)
  }

  /** An import that can be used whatever happens to the batch. */
  predicate Settled(batch: seq<Entry>, available: set<string>, m: string) {
    IsBase(m) || (m in available && !Declared(batch, m))
  }

  lemma {:induction false} KnownAndStable(batch: seq<Entry>, available: set<string>, m: string)
    ensures m in Known(batch, available) <==> !Unsupplied(batch, available, m)
    ensures m in Stable(batch, available) <==> Settled(batch, available, m)
  {
    BaseModules(m);
  }

  /** A missing import is never one that can be used. */
  lemma MissingIsNotStable(batch: seq<Entry>, available: set<string>, m: string)
    requires Unsupplied(batch, available, m)
    ensures m !in Stable(batch, available)
  {
    KnownAndStable(batch, available, m);
  }

  predicate IsImported(batch: seq<Entry>, m: string) {
    exists e | e in batch :: m in e.imports
  }

  lemma {:induction false} MissingExactlyWhen(batch: seq<Entry>, available: set<string>, m: string)
    ensures m in MissingImports(batch, available) <==> IsImported(batch, m) && Unsupplied(batch, available, m)
  {
    KnownAndStable(batch, available, m);
  }

  /** Closed under: a valid file with a non-blank name, each of whose imports is settled or in the
      set, has its stripped name in the set. */
  ghost predicate ClosedByFields(batch: seq<Entry>, available: set<string>, names: set<string>) {
    forall e | e in batch && e.valid && Strip(e.mibName) != []
      && (forall m | m in e.imports :: Settled(batch, available, m) || m in names) :: Strip(e.mibName) in names
  }

  /** A name is ready: it is in every closed set. */
  ghost predicate InEveryClosed(batch: seq<Entry>, available: set<string>, n: string) {
    forall names: set<string> | ClosedByFields(batch, available, names) :: n in names
  }

  lemma {:induction false} ClosedMeansClosedByFields(batch: seq<Entry>, available: set<string>, names: set<string>)
    ensures Closed(batch, Stable(batch, available), names) <==> ClosedByFields(batch, available, names)
  {
    forall m ensures m in Stable(batch, available) <==> Settled(batch, available, m) {
      KnownAndStable(batch, available, m);
    }
    forall e | e in batch
      ensures Unblocked(e, Stable(batch, available), names) <==>
        forall m | m in e.imports :: Settled(batch, available, m) || m in names
    {}
  }

  /** The ready set is the least set closed in the batch's own terms. */
  lemma {:induction false} ReadyByFields(batch: seq<Entry>, available: set<string>, n: string)
    ensures ClosedByFields(batch, available, ReadySet(batch, Stable(batch, available)))
    ensures n in ReadySet(batch, Stable(batch, available)) <==> InEveryClosed(batch, available, n)
  {
    var ready := ReadySet(batch, Stable(batch, available));
    ReadySetIsLeastClosed(batch, Stable(batch, available));
    ClosedMeansClosedByFields(batch, available, ready);
    forall names: set<string> | ClosedByFields(batch, available, names) ensures ready <= names {
      ClosedMeansClosedByFields(batch, available, names);
    }
  }

  /** What the report says of file i. */
  ghost predicate SaysOfFile(r: FileReport, e: Entry, batch: seq<Entry>, available: set<string>) {
    && (forall m :: m in r.missingDeps <==> m in e.imports && Unsupplied(batch, available, m))
    && (forall m :: m in r.partialBlockers <==>
          m in e.imports && !Settled(batch, available, m) && !InEveryClosed(batch, available, m))
    && (r.readyForPartial <==> e.valid && e.mibName != [] && InEveryClosed(batch, available, e.mibName))
  }

  lemma {:induction false} ReportSays(r: FileReport, e: Entry, batch: seq<Entry>, available: set<string>)
    requires var stable := Stable(batch, available);
      Reports(r, e, Known(batch, available), stable, ReadySet(batch, stable))
    ensures SaysOfFile(r, e, batch, available)
  {
    forall m ensures (m in Known(batch, available) <==> !Unsupplied(batch, available, m))
                  && (m in Stable(batch, available) <==> Settled(batch, available, m))
                  && (m in ReadySet(batch, Stable(batch, available)) <==> InEveryClosed(batch, available, m))
    {
      KnownAndStable(batch, available, m);
      ReadyByFields(batch, available, m);
    }
  }

  lemma {:induction false} ReadyMibsMembers(batch: seq<Entry>, ready: set<string>, n: string)
    ensures n in ReadyMibs(batch, ready) <==> exists e | e in batch :: ReadyEntry(e, ready) && e.mibName == n
    ensures n in BlockedMibs(batch, ready) <==> exists e | e in batch :: BlockedEntry(e, ready) && e.mibName == n
  {
    if batch != [] {
      ReadyMibsMembers(batch[1..], ready, n);
      assert batch == [batch[0]] + batch[1..];
    }
  }

  /** A valid file declares the name, and the name is not blank. */
  predicate ValidName(batch: seq<Entry>, n: string) {
    Strip(n) != [] && exists e | e in batch :: e.valid && e.mibName == n
  }

  lemma {:induction false} ListedExactlyWhen(batch: seq<Entry>, available: set<string>, n: string)
    ensures var ready := ReadySet(batch, Stable(batch, available));
      && (n in ReadyMibs(batch, ready) <==> ValidName(batch, n) && InEveryClosed(batch, available, n))
      && (n in BlockedMibs(batch, ready) <==> ValidName(batch, n) && !InEveryClosed(batch, available, n))
  {
    ReadyMibsMembers(batch, ReadySet(batch, Stable(batch, available)), n);
    ReadyByFields(batch, available, n);
    assert Strip([]) == [];
  }

  lemma {:induction false} ReportInBatchTerms(a: Analysis, batch: seq<Entry>, available: set<string>)
    requires var stable := Stable(batch, available);
      var ready := ReadySet(batch, stable);
      && AllReported(a.files, batch, Known(batch, available), stable, ready)
      && a.readyMibs == ReadyMibs(batch, ready)
      && a.blockedMibs == BlockedMibs(batch, ready)
    requires a.globalMissing == MissingImports(batch, available)
    ensures |a.files| == |batch| && forall i | 0 <= i < |batch| :: SaysOfFile(a.files[i], batch[i], batch, available)
    ensures forall m :: m in a.globalMissing <==> IsImported(batch, m) && Unsupplied(batch, available, m)
    ensures forall n :: n in a.readyMibs <==> ValidName(batch, n) && InEveryClosed(batch, available, n)
    ensures forall n :: n in a.blockedMibs <==> ValidName(batch, n) && !InEveryClosed(batch, available, n)
  {
    forall i | 0 <= i < |batch| ensures SaysOfFile(a.files[i], batch[i], batch, available) {
      ReportSays(a.files[i], batch[i], batch, available);
    }
    forall m ensures m in a.globalMissing <==> IsImported(batch, m) && Unsupplied(batch, available, m) {
      MissingExactlyWhen(batch, available, m);
    }
    forall n ensures (n in a.readyMibs <==> ValidName(batch, n) && InEveryClosed(batch, available, n))
                  && (n in a.blockedMibs <==> ValidName(batch, n) && !InEveryClosed(batch, available, n))
    {
      ListedExactlyWhen(batch, available, n);
    }
  }

  method AnalyzeUploadBatch(batch: seq<Entry>, available: set<string>) returns (a: Analysis)
    ensures var stable := Stable(batch, available);
      var ready := ReadySet(batch, stable);
      && AllReported(a.files, batch, Known(batch, available), stable, ready)
      && a.readyMibs == ReadyMibs(batch, ready)
      && a.blockedMibs == BlockedMibs(batch, ready)
    ensures a.globalMissing == MissingImports(batch, available)
    ensures a.allValid <==> forall e | e in batch :: e.valid
    // the same in the batch's own terms
    ensures |a.files| == |batch| && forall i | 0 <= i < |batch| :: SaysOfFile(a.files[i], batch[i], batch, available)
    ensures forall m :: m in a.globalMissing <==> IsImported(batch, m) && Unsupplied(batch, available, m)
    ensures forall n :: n in a.readyMibs <==> ValidName(batch, n) && InEveryClosed(batch, available, n)
    ensures forall n :: n in a.blockedMibs <==> ValidName(batch, n) && !InEveryClosed(batch, available, n)
  {
    var known, stable := Known(batch, available), Stable(batch, available);
    var ready := ReadyNames(batch, stable);
    var files, allValid := ReportAll(batch, known, stable, ready);
    ReportedMissingIsOutside(files, batch, known, stable, ready);
    a := Analysis(files, ReadyMibs(batch, ready), BlockedMibs(batch, ready), ReportedMissing(files), allValid);
    ReportInBatchTerms(a, batch, available);
  }

  lemma Regroup(whole: seq<string>, head: seq<string>, a: seq<string>, b: seq<string>, front: seq<string>)
    requires whole == head + (a + b) && front == head + a
    ensures whole == front + b
  {}

  /** The reports keep every import as often as it is given, and in order. */
  lemma KeepInOrder(a: seq<string>, b: seq<string>, drop: set<string>)
    ensures Keep(a + b, drop) == Keep(a, drop) + Keep(b, drop)
    ensures forall m :: multiset(Keep(a, drop))[m] == if m in drop then 0 else multiset(a)[m]
  {
    FilterConcat(a, b, NotIn(drop));
    FilterMembers(a, NotIn(drop));
  }

  /** What one file adds to the two lists. */
  function ReadyPart(e: Entry, ready: set<string>): seq<string> {
    if ReadyEntry(e, ready) then [e.mibName] else []
  }

  function BlockedPart(e: Entry, ready: set<string>): seq<string> {
    if BlockedEntry(e, ready) then [e.mibName] else []
  }

  lemma ListsCons(e: Entry, rest: seq<Entry>, ready: set<string>)
    ensures ReadyMibs([e] + rest, ready) == ReadyPart(e, ready) + ReadyMibs(rest, ready)
    ensures BlockedMibs([e] + rest, ready) == BlockedPart(e, ready) + BlockedMibs(rest, ready)
  {
    assert ([e] + rest)[1..] == rest;
  }

  /** The lists keep the order of the batch. */
  lemma {:induction false} ReadyInOrder(a: seq<Entry>, b: seq<Entry>, ready: set<string>)
    ensures ReadyMibs(a + b, ready) == ReadyMibs(a, ready) + ReadyMibs(b, ready)
  {
    if a == [] {
      assert a + b == b;
    } else {
      var rest := a[1..];
      ReadyInOrder(rest, b, ready);
      ListsCons(a[0], rest + b, ready);
      ListsCons(a[0], rest, ready);
      assert a == [a[0]] + rest && a + b == [a[0]] + (rest + b);
      Regroup(ReadyMibs(a + b, ready), ReadyPart(a[0], ready), ReadyMibs(rest, ready), ReadyMibs(b, ready), ReadyMibs(a, ready));
    }
  }

  lemma {:induction false} BlockedInOrder(a: seq<Entry>, b: seq<Entry>, ready: set<string>)
    ensures BlockedMibs(a + b, ready) == BlockedMibs(a, ready) + BlockedMibs(b, ready)
  {
    if a == [] {
      assert a + b == b;
    } else {
      var rest := a[1..];
      BlockedInOrder(rest, b, ready);
      ListsCons(a[0], rest + b, ready);
      ListsCons(a[0], rest, ready);
      assert a == [a[0]] + rest && a + b == [a[0]] + (rest + b);
      Regroup(BlockedMibs(a + b, ready), BlockedPart(a[0], ready), BlockedMibs(rest, ready), BlockedMibs(b, ready),
        BlockedMibs(a, ready));
    }
  }

  /** Every valid file with a non-blank name is reported exactly once, as ready or as blocked. */
  lemma {:induction false} ReadyAndBlockedPartition(batch: seq<Entry>, ready: set<string>)
    ensures multiset(ReadyMibs(batch, ready)) + multiset(BlockedMibs(batch, ready)) == multiset(ValidMibs(batch))
  {
    if batch != [] {
      ReadyAndBlockedPartition(batch[1..], ready);
      var e := batch[0];
      assert Strip([]) == [];
    }
  }

  /* ---- compile order, order independence, monotonicity ---- */

  function Elements(order: seq<string>): set<string> {
    set n | n in order
  }

  /** Some usable entry of that name has all its imports stable or among the earlier names. */
  ghost predicate Placed(batch: seq<Entry>, stable: set<string>, name: string, earlier: set<string>) {
    exists e :: e in batch && Usable(e) && NameOf(e) == name && Unblocked(e, stable, earlier)
  }

  ghost predicate CompileOrder(batch: seq<Entry>, stable: set<string>, order: seq<string>) {
    && (forall i, j | 0 <= i < j < |order| :: order[i] != order[j])
    && (forall k | 0 <= k < |order| :: Placed(batch, stable, order[k], Elements(order[..k])))
  }

  /** While some ready name is missing from the order, one can be appended. */
  lemma NextInOrder(batch: seq<Entry>, stable: set<string>, order: seq<string>) returns (name: string)
    requires Elements(order) < ReadySet(batch, stable)
    ensures name in ReadySet(batch, stable) && name !in Elements(order)
    ensures Placed(batch, stable, name, Elements(order))
  {
    ReadySetIsLeastClosed(batch, stable);
    assert !Closed(batch, stable, Elements(order));
    var e :| e in batch && Usable(e) && Unblocked(e, stable, Elements(order)) && NameOf(e) !in Elements(order);
    assert Unblocked(e, stable, ReadySet(batch, stable));
    name := NameOf(e);
  }

  lemma AppendToOrder(batch: seq<Entry>, stable: set<string>, order: seq<string>, name: string)
    requires CompileOrder(batch, stable, order)
    requires name !in Elements(order) && Placed(batch, stable, name, Elements(order))
    ensures CompileOrder(batch, stable, order + [name])
    ensures Elements(order + [name]) == Elements(order) + {name}
  {
    var longer := order + [name];
    forall k | 0 <= k < |longer| ensures Placed(batch, stable, longer[k], Elements(longer[..k])) {
      assert longer[..k] == order[..k];
      assert order[..|order|] == order;
    }
    forall i | 0 <= i < |order| ensures order[i] != name {
      assert order[i] in Elements(order);
    }
  }

  lemma {:induction false} CompleteOrder(batch: seq<Entry>, stable: set<string>, start: seq<string>)
    returns (order: seq<string>)
    requires CompileOrder(batch, stable, start) && Elements(start) <= ReadySet(batch, stable)
    ensures CompileOrder(batch, stable, order) && Elements(order) == ReadySet(batch, stable)
    decreases ReadySet(batch, stable) - Elements(start)
  {
    order := start;
    if Elements(start) != ReadySet(batch, stable) {
      var name := NextInOrder(batch, stable, start);
      AppendToOrder(batch, stable, start, name);
      order := CompleteOrder(batch, stable, start + [name]);
    }
  }

  /** The ready names admit a compile order. */
  lemma {:induction false} ReadyHasCompileOrder(batch: seq<Entry>, stable: set<string>) returns (order: seq<string>)
    ensures CompileOrder(batch, stable, order)
    ensures Elements(order) == ReadySet(batch, stable)
  {
    order := CompleteOrder(batch, stable, []);
  }

  lemma ReadyIgnoresBatchOrder(batch: seq<Entry>, shuffled: seq<Entry>, available: set<string>)
    requires multiset(batch) == multiset(shuffled)
    ensures ReadySet(batch, Stable(batch, available)) == ReadySet(shuffled, Stable(shuffled, available))
  {
    assert forall e :: e in batch <==> e in multiset(batch);
    assert forall e :: e in shuffled <==> e in multiset(shuffled);
    assert BatchNames(batch) == BatchNames(shuffled);
    assert UsableNames(batch) == UsableNames(shuffled);
    var stable := Stable(batch, available);
    assert forall x: set<string> :: Closed(batch, stable, x) <==> Closed(shuffled, stable, x);
  }

  lemma MoreAvailableKeepsReady(batch: seq<Entry>, available: set<string>, more: set<string>)
    requires available <= more
    ensures ReadySet(batch, Stable(batch, available)) <= ReadySet(batch, Stable(batch, more))
  {
    var small, large := Stable(batch, available), Stable(batch, more);
    ReadySetIsLeastClosed(batch, small);
    ReadySetIsLeastClosed(batch, large);
    var x := ReadySet(batch, large);
    forall e | e in batch && Usable(e) && Unblocked(e, small, x) ensures NameOf(e) in x {
      assert Unblocked(e, large, x);
    }
    assert Closed(batch, small, x);
  }

  /* ---- why a MIB is blocked ---- */

  /** The names rank so that every import that the batch itself must supply ranks lower. */
  ghost predicate RankedBy(batch: seq<Entry>, stable: set<string>, rank: map<string, nat>) {
    forall e | e in batch && Usable(e) :: NameOf(e) in rank &&
      forall m | m in e.imports && m !in stable && m in rank :: rank[m] < rank[NameOf(e)]
  }

  lemma {:induction false} RankedEntryIsReady(
      batch: seq<Entry>, available: set<string>, rank: map<string, nat>, e: Entry)
    requires forall e | e in batch :: e.valid && e.mibName != [] && Trimmed(e.mibName)
    requires forall e, m | e in batch && m in e.imports :: !Missing(batch, available, m)
    requires RankedBy(batch, Stable(batch, available), rank)
    requires e in batch && NameOf(e) == e.mibName
    ensures NameOf(e) in ReadySet(batch, Stable(batch, available))
    decreases rank[NameOf(e)]
  {
    var stable := Stable(batch, available);
    var ready := ReadySet(batch, stable);
    forall m | m in e.imports && m !in stable ensures m in ready {
      assert !Missing(batch, available, m);
      assert m in BatchNames(batch);
      var d :| d in batch && d.mibName == m;
      StripFixedPoints(m);
      RankedEntryIsReady(batch, available, rank, d);
    }
    ReadySetIsLeastClosed(batch, stable);
    assert Unblocked(e, stable, ready);
  }

  /** All files valid with trimmed names, nothing missing, no import cycle: nothing is blocked. */
  lemma AcyclicBatchIsFullyReady(batch: seq<Entry>, available: set<string>, rank: map<string, nat>)
    requires forall e | e in batch :: e.valid && e.mibName != [] && Trimmed(e.mibName)
    requires forall e, m | e in batch && m in e.imports :: !Missing(batch, available, m)
    requires RankedBy(batch, Stable(batch, available), rank)
    ensures forall e | e in batch :: !BlockedEntry(e, ReadySet(batch, Stable(batch, available)))
  {
    forall e | e in batch ensures !BlockedEntry(e, ReadySet(batch, Stable(batch, available))) {
      StripFixedPoints(e.mibName);
      RankedEntryIsReady(batch, available, rank, e);
    }
  }

  predicate Supplied(batch: seq<Entry>, n: string) {
    n in UsableNames(batch)
  }

  /** Some usable entry named a imports b, and b is not stable. */
  ghost predicate Needs(batch: seq<Entry>, stable: set<string>, a: string, b: string) {
    b !in stable && exists e :: e in batch && Usable(e) && NameOf(e) == a && b in e.imports
  }

  ghost predicate Chain(batch: seq<Entry>, stable: set<string>, c: seq<string>) {
    forall i | 0 <= i < |c| - 1 :: Needs(batch, stable, c[i], c[i + 1])
  }

  /** A chain explains a block when it runs into a name no usable entry supplies, or into itself. */
  ghost predicate Explains(batch: seq<Entry>, stable: set<string>, c: seq<string>, n: string) {
    && |c| >= 2 && c[0] == n && Chain(batch, stable, c)
    && (!Supplied(batch, c[|c| - 1]) || exists i | 0 <= i < |c| - 1 :: c[i] == c[|c| - 1])
  }

  /** A name that is neither stable nor supplied is missing, or comes only from unusable files. */
  lemma UnsuppliedMeansMissingOrInvalidOnly(batch: seq<Entry>, available: set<string>, n: string)
    requires n !in Stable(batch, available) && !Supplied(batch, n)
    ensures Missing(batch, available, n)
         || (n in BatchNames(batch) && forall e | e in batch && NameOf(e) == n :: !Usable(e))
  {}

  lemma {:induction false} ExtendChain(batch: seq<Entry>, stable: set<string>, c: seq<string>) returns (r: seq<string>)
    requires c != [] && Chain(batch, stable, c)
    requires Elements(c) <= UsableNames(batch)
    requires c[|c| - 1] !in ReadySet(batch, stable)
    ensures Explains(batch, stable, r, c[0])
    decreases UsableNames(batch) - Elements(c)
  {
    var last := c[|c| - 1];
    var ready := ReadySet(batch, stable);
    assert last in Elements(c);
    var e :| e in batch && Usable(e) && NameOf(e) == last;
    ReadySetIsLeastClosed(batch, stable);
    assert !Unblocked(e, stable, ready);
    var b :| b in e.imports && b !in stable && b !in ready;
    assert Needs(batch, stable, last, b);
    r := c + [b];
    assert Chain(batch, stable, r);
    if Supplied(batch, b) && b !in c {
      assert b in Elements(r) && b !in Elements(c);
      r := ExtendChain(batch, stable, r);
    } else if b in c {
      var i :| 0 <= i < |c| && c[i] == b;
      assert r[i] == r[|r| - 1];
    }
  }

  lemma BlockedNameHasChain(batch: seq<Entry>, stable: set<string>, n: string) returns (c: seq<string>)
    requires Supplied(batch, n) && n !in ReadySet(batch, stable)
    ensures Explains(batch, stable, c, n)
  {
    c := ExtendChain(batch, stable, [n]);
  }

  /** No name is supplied by two different usable entries. */
  predicate UniqueSuppliers(batch: seq<Entry>) {
    forall d, e | d in batch && e in batch && Usable(d) && Usable(e) && NameOf(d) == NameOf(e) :: d == e
  }

  lemma ExplainedIsBlocked(batch: seq<Entry>, stable: set<string>, c: seq<string>)
    requires UniqueSuppliers(batch) && c != [] && Explains(batch, stable, c, c[0])
    ensures c[0] !in ReadySet(batch, stable)
  {
    var ready := ReadySet(batch, stable);
    var rest := ready - Elements(c);
    ReadySetIsLeastClosed(batch, stable);
    forall e | e in batch && Usable(e) && NameOf(e) in c ensures !Unblocked(e, stable, rest) {
      assert Supplied(batch, NameOf(e));
      var i :| 0 <= i < |c| - 1 && c[i] == NameOf(e);
      assert Needs(batch, stable, c[i], c[i + 1]);
      assert c[i + 1] in Elements(c);
    }
    forall e | e in batch && Usable(e) && Unblocked(e, stable, rest) ensures NameOf(e) in rest {
      assert Unblocked(e, stable, ready);
    }
    assert Closed(batch, stable, rest);
    assert c[0] in Elements(c);
  }

  /** With unique names, a supplied name is blocked exactly when some chain explains it. */
  lemma BlockedExactlyWhenExplained(batch: seq<Entry>, stable: set<string>, n: string)
    requires UniqueSuppliers(batch) && Supplied(batch, n)
    ensures n !in ReadySet(batch, stable) <==> exists c :: Explains(batch, stable, c, n)
  {
    if n !in ReadySet(batch, stable) {
      var c := BlockedNameHasChain(batch, stable, n);
    }
    forall c | Explains(batch, stable, c, n) ensures n !in ReadySet(batch, stable) {
      ExplainedIsBlocked(batch, stable, c);
    }
  }

  /* ---- where the report and the loop part ways ---- */

  /** A valid file with no blockers is reported ready exactly when its name has no surrounding
      blanks: the loop records stripped names, the report looks up the declared one. */
  lemma UnblockedReadyExactlyWhenTrimmed(batch: seq<Entry>, stable: set<string>, e: Entry)
    requires e in batch && Usable(e) && Unblocked(e, stable, ReadySet(batch, stable))
    ensures ReadyEntry(e, ReadySet(batch, stable)) <==> Trimmed(e.mibName)
  {
    var ready := ReadySet(batch, stable);
    ReadySetIsLeastClosed(batch, stable);
    StripFixedPoints(e.mibName);
    assert e.mibName != [] && NameOf(e) in ready;
    if e.mibName in ready {
      var d :| d in batch && NameOf(d) == e.mibName;
      StripFixedPoints(d.mibName);
      assert NameOf(d) == Strip(d.mibName);
      assert Trimmed(NameOf(d));
      assert Trimmed(e.mibName);
    }
  }

  /** " A.mib" without a DEFINITIONS line is blocked although it imports nothing. */
  lemma PaddedNameIsBlocked()
    ensures var batch := [Entry(" A", true, [])];
      BlockedEntry(batch[0], ReadySet(batch, Stable(batch, {})))
  {}

  /** Some usable file of e's name has no blockers. */
  predicate SuppliedUnblocked(batch: seq<Entry>, stable: set<string>, ready: set<string>, e: Entry) {
    exists d | d in batch :: Usable(d) && NameOf(d) == NameOf(e) && Unblocked(d, stable, ready)
  }

  /** Every ready name has a supplier without blockers. */
  lemma ReadyNameHasSupplier(batch: seq<Entry>, stable: set<string>, name: string) returns (d: Entry)
    requires name in ReadySet(batch, stable)
    ensures d in batch && Usable(d) && NameOf(d) == name && Unblocked(d, stable, ReadySet(batch, stable))
  {
    var order := ReadyHasCompileOrder(batch, stable);
    assert name in Elements(order);
    var k :| 0 <= k < |order| && order[k] == name;
    assert Placed(batch, stable, order[k], Elements(order[..k]));
    d :| d in batch && Usable(d) && NameOf(d) == order[k] && Unblocked(d, stable, Elements(order[..k]));
    assert Elements(order[..k]) <= Elements(order);
  }

  /** A file is reported ready exactly when it is usable, its declared name is trimmed, and it or
      another file of the same name has no blockers. */
  lemma ReportedReadyExactlyWhen(batch: seq<Entry>, stable: set<string>, e: Entry)
    requires e in batch
    ensures var ready := ReadySet(batch, stable);
      ReadyEntry(e, ready) <==> Usable(e) && Trimmed(e.mibName) && SuppliedUnblocked(batch, stable, ready, e)
  {
    var ready := ReadySet(batch, stable);
    ReadySetIsLeastClosed(batch, stable);
    StripFixedPoints(e.mibName);
    if ReadyEntry(e, ready) {
      var d := ReadyNameHasSupplier(batch, stable, e.mibName);
      StripFixedPoints(d.mibName);
    }
  }

  /** A usable file with blockers and a trimmed name is reported ready exactly when another file of
      its name has none; so never when names have one supplier. */
  lemma ReadyDespiteBlockers(batch: seq<Entry>, stable: set<string>, e: Entry)
    requires e in batch && Usable(e) && Trimmed(e.mibName) && !Unblocked(e, stable, ReadySet(batch, stable))
    ensures ReadyEntry(e, ReadySet(batch, stable)) <==>
      exists d :: d in batch && d != e && Usable(d) && NameOf(d) == NameOf(e)
        && Unblocked(d, stable, ReadySet(batch, stable))
    ensures UniqueSuppliers(batch) ==> !ReadyEntry(e, ReadySet(batch, stable))
  {
    ReportedReadyExactlyWhen(batch, stable, e);
  }

  lemma DuplicateIsReadyDespiteBlockers()
    ensures var batch := [Entry("A", true, []), Entry("A", true, ["B"])];
      var ready := ReadySet(batch, Stable(batch, {}));
      ReadyEntry(batch[1], ready) && !Unblocked(batch[1], Stable(batch, {}), ready)
  {
    var batch := [Entry("A", true, []), Entry("A", true, ["B"])];
    var stable := Stable(batch, {});
    ReadySetIsLeastClosed(batch, stable);
    assert Trimmed("A");
    StripFixedPoints("A");
    assert NameOf(batch[0]) == "A" && NameOf(batch[1]) == "A";
    assert Unblocked(batch[0], stable, ReadySet(batch, stable));
    assert Closed(batch, stable, {"A"});
    assert "B" in batch[1].imports;
    assert |"RFC-1212"| != |"B"| && |"RFC-1215"| != |"B"| && |"RFC1155-SMI"| != |"B"|
      && |"SNMPv2-SMI-v1"| != |"B"| && |"SNMPv2-TC-v1"| != |"B"|;
    assert "B" !in stable;
  }

  /* ---- upload policy and compile targets ---- */

  datatype Block = NotBlocked | InvalidExtension | NoFiles | MissingDependencies

  function UploadBlock(a: Analysis, autoFetch: bool): Block {
    if !a.allValid then InvalidExtension
    else if a.files == [] then NoFiles
    else if a.globalMissing != {} && !autoFetch then MissingDependencies
    else NotBlocked
  }

  /** An upload is refused for an unsupported file first, then for being empty, then, without
      auto-fetch, for an import that nobody supplies; otherwise it is accepted. */
  lemma {:induction false} UploadIsBlockedExactlyWhen(batch: seq<Entry>, available: set<string>, a: Analysis, autoFetch: bool)
    requires |a.files| == |batch|
    requires a.globalMissing == MissingImports(batch, available)
    requires a.allValid <==> forall e | e in batch :: e.valid
    ensures var unsupported := exists e | e in batch :: !e.valid;
      var missing := exists m :: IsImported(batch, m) && Unsupplied(batch, available, m);
      UploadBlock(a, autoFetch) ==
        if unsupported then InvalidExtension
        else if |batch| == 0 then NoFiles
        else if !autoFetch && missing then MissingDependencies
        else NotBlocked
  {
    forall m ensures m in a.globalMissing <==> IsImported(batch, m) && Unsupplied(batch, available, m) {
      MissingExactlyWhen(batch, available, m);
    }
  }

  /** Without auto-fetch an accepted upload leaves a MIB blocked only when its imports lead into a
      cycle within the batch. */
  lemma AcceptedUploadIsBlockedOnlyByCycles(batch: seq<Entry>, available: set<string>, a: Analysis, n: string)
    returns (c: seq<string>)
    requires a.globalMissing == MissingImports(batch, available)
    requires a.allValid <==> forall e | e in batch :: e.valid
    requires forall e | e in batch :: e.mibName != [] && Trimmed(e.mibName)
    requires UploadBlock(a, false) == NotBlocked
    requires Supplied(batch, n) && n !in ReadySet(batch, Stable(batch, available))
    ensures |c| >= 2 && c[0] == n && Chain(batch, Stable(batch, available), c)
    ensures exists i | 0 <= i < |c| - 1 :: c[i] == c[|c| - 1]
  {
    var stable := Stable(batch, available);
    c := BlockedNameHasChain(batch, stable, n);
    var last := c[|c| - 1];
    assert Needs(batch, stable, c[|c| - 2], last);
    var e :| e in batch && last in e.imports;
    if !Supplied(batch, last) {
      assert last !in MissingImports(batch, available);
      assert !Missing(batch, available, last);
      assert last in BatchNames(batch);
      var d :| d in batch && d.mibName == last;
      StripFixedPoints(last);
      assert Usable(d);
      assert false;
    }
  }

  /** n is one of the names once they are stripped and the blank ones dropped. */
  predicate Named(names: seq<string>, n: string) {
    n != [] && exists m | m in names :: Strip(m) == n
  }

  function StripAll(names: seq<string>): (r: seq<string>) {
    if names == [] then []
    else (if Strip(names[0]) == [] then [] else [Strip(names[0])]) + StripAll(names[1..])
  }

  function OnlyIn(names: seq<string>, allowed: seq<string>): (r: seq<string>)
    ensures forall n :: n in r <==> n in names && n in allowed
  {
    if names == [] then []
    else if names[0] in allowed then [names[0]] + OnlyIn(names[1..], allowed)
    else OnlyIn(names[1..], allowed)
  }

  /** First occurrences. */
  function Unique(names: seq<string>, seen: set<string>): (r: seq<string>)
    ensures forall n :: n in r <==> n in names && n !in seen
    ensures forall i, j | 0 <= i < j < |r| :: r[i] != r[j]
  {
    if names == [] then []
    else if names[0] in seen then Unique(names[1..], seen)
    else [names[0]] + Unique(names[1..], seen + {names[0]})
  }

  /** The targets of a partial compile; an empty request means every ready MIB. */
  function PartialTargets(readyMibs: seq<string>, requested: seq<string>): Result<seq<string>> {
    var ready := StripAll(readyMibs);
    var wanted := StripAll(if requested == [] then ready else requested);
    var selected := OnlyIn(wanted, ready);
    if selected == [] then Err("No ready MIBs are available for partial compile.") else Ok(Unique(selected, {}))
  }

  lemma {:induction false} StripAllNames(names: seq<string>, n: string)
    ensures n in StripAll(names) <==> Named(names, n)
  {
    if names != [] {
      StripAllNames(names[1..], n);
      assert names == [names[0]] + names[1..];
      assert Named(names, n) <==> (n != [] && Strip(names[0]) == n) || Named(names[1..], n);
    }
  }

  /** A partial compile targets exactly the requested names that are ready, each once, and is
      refused exactly when there are none. */
  lemma PartialTargetsAreTheReadyRequested(readyMibs: seq<string>, requested: seq<string>)
    ensures var r := PartialTargets(readyMibs, requested);
      && (r.Ok? ==> forall i, j | 0 <= i < j < |r.value| :: r.value[i] != r.value[j])
      && (r.Ok? ==> r.value != [])
      && (forall n :: (r.Ok? && n in r.value) <==>
            Named(readyMibs, n) && Named(if requested == [] then readyMibs else requested, n))
  {
    var ready := StripAll(readyMibs);
    var selected := OnlyIn(StripAll(if requested == [] then ready else requested), ready);
    assert selected != [] ==> selected[0] in Unique(selected, {});
    forall n ensures n in selected <==>
        Named(readyMibs, n) && Named(if requested == [] then readyMibs else requested, n)
    {
      StripAllNames(readyMibs, n);
      StripAllNames(requested, n);
      StripAllNames(ready, n);
      if n in ready {
        var m :| m in readyMibs && Strip(m) == n;
        StripFixedPoints(m);
        StripFixedPoints(n);
      }
    }
  }

  /** a occurs in the list, and before any b. */
  predicate Precedes(names: seq<string>, a: string, b: string) {
    exists p | 0 <= p < |names| :: names[p] == a && forall q | 0 <= q <= p :: names[q] != b
  }

  lemma PrecedesCons(x: string, names: seq<string>, a: string, b: string)
    requires Precedes(names, a, b) && x != b
    ensures Precedes([x] + names, a, b)
  {
    var p :| 0 <= p < |names| && names[p] == a && forall q | 0 <= q <= p :: names[q] != b;
    assert ([x] + names)[p + 1] == a;
    forall q | 0 <= q <= p + 1 ensures ([x] + names)[q] != b {
      assert q > 0 ==> ([x] + names)[q] == names[q - 1];
    }
  }

  lemma {:induction false} UniqueInOrder(names: seq<string>, seen: set<string>, i: nat, j: nat)
    requires i < j < |Unique(names, seen)|
    ensures Precedes(names, Unique(names, seen)[i], Unique(names, seen)[j])
  {
    var r := Unique(names, seen);
    if names[0] in seen {
      UniqueInOrder(names[1..], seen, i, j);
      PrecedesCons(names[0], names[1..], r[i], r[j]);
    } else if i > 0 {
      UniqueInOrder(names[1..], seen + {names[0]}, i - 1, j - 1);
      PrecedesCons(names[0], names[1..], r[i], r[j]);
    } else {
      assert names[0] == r[0] != r[j];
    }
    assert names == [names[0]] + names[1..];
  }

  lemma {:induction false} OnlyInKeepsOrder(names: seq<string>, allowed: seq<string>, a: string, b: string)
    requires Precedes(OnlyIn(names, allowed), a, b) && b in allowed && a != b
    ensures Precedes(names, a, b)
  {
    assert names != [] && names == [names[0]] + names[1..];
    var r := OnlyIn(names, allowed);
    var p :| 0 <= p < |r| && r[p] == a && forall q | 0 <= q <= p :: r[q] != b;
    if names[0] !in allowed {
      OnlyInKeepsOrder(names[1..], allowed, a, b);
      PrecedesCons(names[0], names[1..], a, b);
    } else if names[0] != a {
      assert r[0] == names[0] && r[1..] == OnlyIn(names[1..], allowed);
      assert r[1..][p - 1] == a && forall q | 0 <= q <= p - 1 :: r[1..][q] == r[q + 1];
      OnlyInKeepsOrder(names[1..], allowed, a, b);
      PrecedesCons(names[0], names[1..], a, b);
    }
  }

  /** The targets keep the order in which they were first requested. */
  lemma PartialTargetsInOrder(readyMibs: seq<string>, requested: seq<string>, i: nat, j: nat)
    requires PartialTargets(readyMibs, requested).Ok? && i < j < |PartialTargets(readyMibs, requested).value|
    ensures var targets := PartialTargets(readyMibs, requested).value;
      Precedes(StripAll(if requested == [] then StripAll(readyMibs) else requested), targets[i], targets[j])
  {
    var ready := StripAll(readyMibs);
    var wanted := StripAll(if requested == [] then ready else requested);
    var targets := PartialTargets(readyMibs, requested).value;
    UniqueInOrder(OnlyIn(wanted, ready), {}, i, j);
    assert targets[j] in targets && targets[i] != targets[j];
    OnlyInKeepsOrder(wanted, ready, targets[i], targets[j]);
  }
}
