/** The difference between two compiled bundles, its totals and its laws. */
module BundleDiff {
  import opened Text

  /** One module's compiled JSON; V is the type of an object or notification record. */
  datatype Payload<V> = Payload(objects: map<string, V>, notifications: map<string, V>, imports: map<string, seq<string>>)

  /** The counts stored with a module row when the bundle was compiled. */
  datatype ModuleRow = ModuleRow(objectCount: nat, notificationCount: nat)

  /** Module rows, the payload files that still exist, and the stored content hash. */
  datatype Bundle<V> = Bundle(modules: map<string, ModuleRow>, payloads: map<string, Payload<V>>, hash: Option<string>)

  /* ---- per-module differences ---- */

  datatype NamedDiff = NamedDiff(added: set<string>, removed: set<string>, changed: set<string>)

  datatype SymbolDiff = SymbolDiff(addedSymbols: set<string>, removedSymbols: set<string>)

  datatype ImportsDiff = ImportsDiff(addedModules: set<string>, removedModules: set<string>, changedModules: map<string, SymbolDiff>)

  datatype ModuleDiff = ModuleDiff(objects: NamedDiff, notifications: NamedDiff, imports: ImportsDiff)

  function NamedMapDiff<V(==)>(left: map<string, V>, right: map<string, V>): NamedDiff {
    NamedDiff(
      right.Keys - left.Keys,
      left.Keys - right.Keys,
      set n | n in left && n in right && left[n] != right[n])
  }

  function Symbols(names: seq<string>): set<string> {
    set n | n in names
  }

  function DiffImports(left: map<string, seq<string>>, right: map<string, seq<string>>): ImportsDiff {
    ImportsDiff(
      right.Keys - left.Keys,
      left.Keys - right.Keys,
      map m | m in left && m in right && Symbols(left[m]) != Symbols(right[m]) ::
        SymbolDiff(Symbols(right[m]) - Symbols(left[m]), Symbols(left[m]) - Symbols(right[m])))
  }

  predicate NoNames(d: NamedDiff) {
    d.added == {} && d.removed == {} && d.changed == {}
  }

  function DiffModule<V(==)>(left: Payload<V>, right: Payload<V>): Option<ModuleDiff> {
    var d := ModuleDiff(
      NamedMapDiff(left.objects, right.objects),
      NamedMapDiff(left.notifications, right.notifications),
      DiffImports(left.imports, right.imports));
    if NoNames(d.objects) && NoNames(d.notifications)
       && d.imports.addedModules == {} && d.imports.removedModules == {} && d.imports.changedModules == map[]
    then None else Some(d)
  }

  function SymbolSets(imports: map<string, seq<string>>): map<string, set<string>> {
    map m | m in imports :: Symbols(imports[m])
  }

  lemma NamedDiffEmptyMeansEqual<V(!new)>(left: map<string, V>, right: map<string, V>)
    ensures NoNames(NamedMapDiff(left, right)) <==> left == right
  {}

  lemma ImportsDiffEmptyMeansSameSymbols(left: map<string, seq<string>>, right: map<string, seq<string>>)
    ensures var d := DiffImports(left, right);
      (d.addedModules == {} && d.removedModules == {} && d.changedModules == map[])
      <==> SymbolSets(left) == SymbolSets(right)
  {
    var d := DiffImports(left, right);
    var l, r := SymbolSets(left), SymbolSets(right);
    if d.addedModules == {} && d.removedModules == {} && d.changedModules == map[] {
      forall m ensures m in left <==> m in right {
        assert m !in d.addedModules && m !in d.removedModules;
      }
      forall m | m in left ensures l[m] == r[m] {
        assert m !in d.changedModules;
      }
      assert l.Keys == r.Keys;
    }
    if l == r {
      assert l.Keys == left.Keys && r.Keys == right.Keys;
      forall m | m in left ensures Symbols(left[m]) == Symbols(right[m]) {
        assert l[m] == r[m];
      }
    }
  }

  /** A module is omitted exactly when objects, notifications and import symbol sets all match. */
  lemma OmittedExactlyWhenSame<V(!new)>(left: Payload<V>, right: Payload<V>)
    ensures DiffModule(left, right) == None <==>
      left.objects == right.objects && left.notifications == right.notifications
      && SymbolSets(left.imports) == SymbolSets(right.imports)
  {
    NamedDiffEmptyMeansEqual(left.objects, right.objects);
    NamedDiffEmptyMeansEqual(left.notifications, right.notifications);
    ImportsDiffEmptyMeansSameSymbols(left.imports, right.imports);
  }

  /** The diff rebuilds the right side: drop the removed names, take the added and changed ones
      from the right, keep the rest. */
  lemma DiffRebuildsRight<V(!new)>(left: map<string, V>, right: map<string, V>)
    ensures var d := NamedMapDiff(left, right);
      && (left.Keys - d.removed) + d.added == right.Keys
      && (left - d.removed) + (map n | n in right && n in d.added + d.changed :: right[n]) == right
  {}

  /* ---- mirror ---- */

  function MirrorNamed(d: NamedDiff): NamedDiff {
    NamedDiff(d.removed, d.added, d.changed)
  }

  function MirrorModule(d: ModuleDiff): ModuleDiff {
    ModuleDiff(
      MirrorNamed(d.objects),
      MirrorNamed(d.notifications),
      ImportsDiff(
        d.imports.removedModules,
        d.imports.addedModules,
        map m | m in d.imports.changedModules ::
          SymbolDiff(d.imports.changedModules[m].removedSymbols, d.imports.changedModules[m].addedSymbols)))
  }

  /** Swapping the sides mirrors a module's diff. */
  lemma SwapMirrorsModule<V(!new)>(left: Payload<V>, right: Payload<V>)
    ensures DiffModule(right, left) ==
      match DiffModule(left, right) case None => None case Some(d) => Some(MirrorModule(d))
  {
    var there, back := DiffImports(left.imports, right.imports), DiffImports(right.imports, left.imports);
    assert NamedMapDiff(right.objects, left.objects) == MirrorNamed(NamedMapDiff(left.objects, right.objects));
    assert NamedMapDiff(right.notifications, left.notifications)
        == MirrorNamed(NamedMapDiff(left.notifications, right.notifications));
    assert back.changedModules == map m | m in there.changedModules ::
      SymbolDiff(there.changedModules[m].removedSymbols, there.changedModules[m].addedSymbols);
    assert there.changedModules == map[] <==> back.changedModules == map[] by {
      if back.changedModules == map[] {
        forall m ensures m !in there.changedModules { assert m !in back.changedModules; }
      }
    }
  }

  /* ---- sums over sets of names ---- */

  ghost function Sum(names: set<string>, f: map<string, nat>): nat
    requires names <= f.Keys
  {
    if names == {} then 0 else var n :| n in names; f[n] + Sum(names - {n}, f)
  }

  lemma {:induction false} SumPeel(names: set<string>, f: map<string, nat>, n: string)
    requires names <= f.Keys && n in names
    ensures Sum(names, f) == f[n] + Sum(names - {n}, f)
  {
    var m :| m in names && Sum(names, f) == f[m] + Sum(names - {m}, f);
    if m != n {
      SumPeel(names - {m}, f, n);
      SumPeel(names - {n}, f, m);
      assert names - {m} - {n} == names - {n} - {m};
    }
  }

  lemma {:induction false} SumSplit(a: set<string>, b: set<string>, f: map<string, nat>)
    requires a + b <= f.Keys && a !! b
    ensures Sum(a + b, f) == Sum(a, f) + Sum(b, f)
  {
    if a == {} {
      assert a + b == b;
    } else {
      var n :| n in a;
      SumSplit(a - {n}, b, f);
      SumPeel(a, f, n);
      SumPeel(a + b, f, n);
      assert a + b - {n} == (a - {n}) + b;
    }
  }

  lemma {:induction false} SumBalance(
      names: set<string>, left: map<string, nat>, right: map<string, nat>,
      added: map<string, nat>, removed: map<string, nat>)
    requires names <= left.Keys && names <= right.Keys && names <= added.Keys && names <= removed.Keys
    requires forall n | n in names :: right[n] + removed[n] == left[n] + added[n]
    ensures Sum(names, right) + Sum(names, removed) == Sum(names, left) + Sum(names, added)
  {
    if names != {} {
      var n :| n in names;
      SumPeel(names, left, n);
      SumPeel(names, right, n);
      SumPeel(names, added, n);
      SumPeel(names, removed, n);
      SumBalance(names - {n}, left, right, added, removed);
    }
  }

  lemma {:induction false} SumSkipsZeros(names: set<string>, f: map<string, nat>)
    requires names <= f.Keys && forall n | n in names :: f[n] == 0
    ensures Sum(names, f) == 0
  {
    if names != {} {
      var n :| n in names;
      SumPeel(names, f, n);
      SumSkipsZeros(names - {n}, f);
    }
  }

  /* ---- the bundle diff ---- */

  datatype Totals = Totals(leftTotal: nat, rightTotal: nat, added: nat, removed: nat, changed: nat)

  datatype BundleChange =
    | Identical(hash: string)
    | Changes(
        modulesAdded: set<string>,
        modulesRemoved: set<string>,
        modulesChanged: map<string, ModuleDiff>,
        modules: Totals,
        objects: Totals,
        notifications: Totals)

  datatype Kind = Objects | Notifications

  function Stored(row: ModuleRow, kind: Kind): nat {
    match kind case Objects => row.objectCount case Notifications => row.notificationCount
  }

  function Part(d: ModuleDiff, kind: Kind): NamedDiff {
    match kind case Objects => d.objects case Notifications => d.notifications
  }

  function Items<V>(p: Payload<V>, kind: Kind): map<string, V> {
    match kind case Objects => p.objects case Notifications => p.notifications
  }

  function StoredCounts<V>(b: Bundle<V>, kind: Kind): map<string, nat> {
    map m | m in b.modules :: Stored(b.modules[m], kind)
  }

  /** The changed modules among some names. */
  function ChangedAmong<V(==)>(left: Bundle<V>, right: Bundle<V>, names: set<string>): map<string, ModuleDiff> {
    map m | m in names && m in left.payloads && m in right.payloads && DiffModule(left.payloads[m], right.payloads[m]).Some?
      :: DiffModule(left.payloads[m], right.payloads[m]).value
  }

  /** The modules on both sides that differ, with their differences. */
  function ChangedModules<V(==)>(left: Bundle<V>, right: Bundle<V>): map<string, ModuleDiff> {
    ChangedAmong(left, right, left.modules.Keys * right.modules.Keys)
  }

  datatype Field = Added | Removed | Changed

  function Names(d: NamedDiff, field: Field): set<string> {
    match field case Added => d.added case Removed => d.removed case Changed => d.changed
  }

  function Sizes(changes: map<string, ModuleDiff>, kind: Kind, field: Field): map<string, nat> {
    map m | m in changes :: |Names(Part(changes[m], kind), field)|
  }

  ghost function Tally(changes: map<string, ModuleDiff>, kind: Kind, field: Field): nat {
    Sum(Sizes(changes, kind, field).Keys, Sizes(changes, kind, field))
  }

  /** The totals before any common module is compared: whole modules added and removed. */
  ghost function WholeModules<V>(left: Bundle<V>, right: Bundle<V>, kind: Kind): Totals {
    var l, r := StoredCounts(left, kind), StoredCounts(right, kind);
    Totals(Sum(l.Keys, l), Sum(r.Keys, r), Sum(r.Keys - l.Keys, r), Sum(l.Keys - r.Keys, l), 0)
  }

  /** t is start plus the tallies of the changed modules. */
  ghost predicate Accumulated(t: Totals, start: Totals, changes: map<string, ModuleDiff>, kind: Kind) {
    && t.leftTotal == start.leftTotal && t.rightTotal == start.rightTotal
    && t.added == start.added + Tally(changes, kind, Added)
    && t.removed == start.removed + Tally(changes, kind, Removed)
    && t.changed == start.changed + Tally(changes, kind, Changed)
  }

  /** What the totals of one kind are meant to be. */
  ghost predicate TotalsAre<V>(t: Totals, left: Bundle<V>, right: Bundle<V>, kind: Kind) {
    Accumulated(t, WholeModules(left, right, kind), ChangedModules(left, right), kind)
  }

  /** Python's sum() over the stored counts of some modules. */
  method SumCounts(names: set<string>, counts: map<string, nat>) returns (total: nat)
    requires names <= counts.Keys
    ensures total == Sum(names, counts)
  {
    total := 0;
    var todo := names;
    while todo != {}
      invariant todo <= names && total + Sum(todo, counts) == Sum(names, counts)
    {
      var n :| n in todo;
      SumPeel(todo, counts, n);
      total, todo := total + counts[n], todo - {n};
    }
  }

  method StartTotals<V>(left: Bundle<V>, right: Bundle<V>, kind: Kind) returns (t: Totals)
    ensures t == WholeModules(left, right, kind)
  {
    var l, r := StoredCounts(left, kind), StoredCounts(right, kind);
    var leftTotal := SumCounts(l.Keys, l);
    var rightTotal := SumCounts(r.Keys, r);
    var added := SumCounts(r.Keys - l.Keys, r);
    var removed := SumCounts(l.Keys - r.Keys, l);
    t := Totals(leftTotal, rightTotal, added, removed, 0);
  }

  function AddSizes(t: Totals, d: NamedDiff): Totals {
    t.(added := t.added + |d.added|, removed := t.removed + |d.removed|, changed := t.changed + |d.changed|)
  }

  lemma {:induction false} SumAgrees(names: set<string>, f: map<string, nat>, g: map<string, nat>)
    requires names <= f.Keys && names <= g.Keys && forall n | n in names :: f[n] == g[n]
    ensures Sum(names, f) == Sum(names, g)
  {
    if names != {} {
      var n :| n in names;
      SumPeel(names, f, n);
      SumPeel(names, g, n);
      SumAgrees(names - {n}, f, g);
    }
  }

  lemma TallyExtends(changes: map<string, ModuleDiff>, kind: Kind, field: Field, m: string, d: ModuleDiff)
    requires m !in changes
    ensures Tally(changes[m := d], kind, field) == Tally(changes, kind, field) + |Names(Part(d, kind), field)|
  {
    var f, g := Sizes(changes, kind, field), Sizes(changes[m := d], kind, field);
    assert g.Keys == f.Keys + {m};
    SumPeel(g.Keys, g, m);
    assert g.Keys - {m} == f.Keys;
    SumAgrees(f.Keys, f, g);
  }

  lemma AccumulateOne(t: Totals, start: Totals, changes: map<string, ModuleDiff>, kind: Kind, m: string, d: ModuleDiff)
    requires m !in changes && Accumulated(t, start, changes, kind)
    ensures Accumulated(AddSizes(t, Part(d, kind)), start, changes[m := d], kind)
  {
    TallyExtends(changes, kind, Added, m, d);
    TallyExtends(changes, kind, Removed, m, d);
    TallyExtends(changes, kind, Changed, m, d);
  }

  lemma ChangedAmongOneMore<V(!new)>(left: Bundle<V>, right: Bundle<V>, names: set<string>, m: string)
    requires m !in names && m in left.payloads && m in right.payloads
    ensures ChangedAmong(left, right, names + {m}) ==
      match DiffModule(left.payloads[m], right.payloads[m])
      case None => ChangedAmong(left, right, names)
      case Some(d) => ChangedAmong(left, right, names)[m := d]
  {}

  lemma NothingTallied(kind: Kind)
    ensures forall t :: Accumulated(t, t, map[], kind)
  {
    assert Sizes(map[], kind, Added) == map[] && Sizes(map[], kind, Removed) == map[] && Sizes(map[], kind, Changed) == map[];
  }

  method Accumulate(t: Totals, ghost start: Totals, ghost changes: map<string, ModuleDiff>, kind: Kind, ghost m: string, d: ModuleDiff)
    returns (t': Totals)
    requires m !in changes && Accumulated(t, start, changes, kind)
    ensures Accumulated(t', start, changes[m := d], kind)
  {
    AccumulateOne(t, start, changes, kind, m, d);
    t' := AddSizes(t, Part(d, kind));
  }

  lemma NothingChanged<V(!new)>(left: Bundle<V>, right: Bundle<V>)
    ensures ChangedAmong(left, right, {}) == map[]
  {}

  /** The common modules are compared one by one, adding to the running totals. */
  method CompareCommon<V(==,!new)>(left: Bundle<V>, right: Bundle<V>, objects0: Totals, notifications0: Totals)
    returns (changes: map<string, ModuleDiff>, objects: Totals, notifications: Totals)
    requires left.modules.Keys <= left.payloads.Keys && right.modules.Keys <= right.payloads.Keys
    ensures changes == ChangedAmong(left, right, left.modules.Keys * right.modules.Keys)
    ensures Accumulated(objects, objects0, changes, Objects)
    ensures Accumulated(notifications, notifications0, changes, Notifications)
  {
    var common := left.modules.Keys * right.modules.Keys;
    changes, objects, notifications := map[], objects0, notifications0;
    var done: set<string> := {};
    NothingTallied(Objects);
    NothingTallied(Notifications);
    NothingChanged(left, right);
    while done != common
      invariant done <= common
      invariant changes == ChangedAmong(left, right, done)
      invariant Accumulated(objects, objects0, changes, Objects)
      invariant Accumulated(notifications, notifications0, changes, Notifications)
      decreases common - done
    {
      assert common - done != {};
      var m :| m in common - done;
      ChangedAmongOneMore(left, right, done, m);
      var change := DiffModule(left.payloads[m], right.payloads[m]);
      if change.Some? {
        objects := Accumulate(objects, objects0, changes, Objects, m, change.value);
        notifications := Accumulate(notifications, notifications0, changes, Notifications, m, change.value);
        changes := changes[m := change.value];
      }
      done := done + {m};
    }
  }

  predicate SameHash<V>(left: Bundle<V>, right: Bundle<V>) {
    left.hash.Some? && left.hash == right.hash
  }

  predicate HasPayloads<V>(b: Bundle<V>) {
    b.modules.Keys <= b.payloads.Keys
  }

  /* ---- the report on the fields ---- */

  /** The names and changes of one kind of record, name by name. */
  ghost predicate SaysOfNames<V(!new)>(d: NamedDiff, left: map<string, V>, right: map<string, V>) {
    && (forall n :: n in d.added <==> n in right && n !in left)
    && (forall n :: n in d.removed <==> n in left && n !in right)
    && (forall n :: n in d.changed <==> n in left && n in right && left[n] != right[n])
  }

  ghost predicate SaysOfSymbols(d: SymbolDiff, left: seq<string>, right: seq<string>) {
    && (forall x :: x in d.addedSymbols <==> x in right && x !in left)
    && (forall x :: x in d.removedSymbols <==> x in left && x !in right)
    && (d.addedSymbols != {} || d.removedSymbols != {})
  }

  /** The imports that differ: whole modules, and symbols of common ones. */
  ghost predicate SaysOfImports(d: ImportsDiff, left: map<string, seq<string>>, right: map<string, seq<string>>) {
    && (forall m :: m in d.addedModules <==> m in right && m !in left)
    && (forall m :: m in d.removedModules <==> m in left && m !in right)
    && (forall m | m in d.changedModules :: m in left && m in right)
    && (forall m | m in left && m in right && m !in d.changedModules :: forall x :: x in left[m] <==> x in right[m])
    && (forall m | m in d.changedModules :: SaysOfSymbols(d.changedModules[m], left[m], right[m]))
  }

  lemma SymbolsSay(left: seq<string>, right: seq<string>)
    requires Symbols(left) != Symbols(right)
    ensures SaysOfSymbols(SymbolDiff(Symbols(right) - Symbols(left), Symbols(left) - Symbols(right)), left, right)
  {}

  lemma ImportsSay(left: map<string, seq<string>>, right: map<string, seq<string>>)
    ensures SaysOfImports(DiffImports(left, right), left, right)
  {
    var d := DiffImports(left, right);
    forall m | m in d.changedModules ensures SaysOfSymbols(d.changedModules[m], left[m], right[m]) {
      SymbolsSay(left[m], right[m]);
    }
    forall m, x | m in left && m in right && m !in d.changedModules ensures x in left[m] <==> x in right[m] {
      assert Symbols(left[m]) == Symbols(right[m]);
      assert x in left[m] <==> x in Symbols(left[m]);
      assert x in right[m] <==> x in Symbols(right[m]);
    }
  }

  ghost predicate SaysOfModule<V(!new)>(d: ModuleDiff, left: Payload<V>, right: Payload<V>) {
    && SaysOfNames(d.objects, left.objects, right.objects)
    && SaysOfNames(d.notifications, left.notifications, right.notifications)
    && SaysOfImports(d.imports, left.imports, right.imports)
  }

  lemma ModuleSays<V(!new)>(left: Payload<V>, right: Payload<V>)
    ensures DiffModule(left, right).Some? ==> SaysOfModule(DiffModule(left, right).value, left, right)
  {
    ImportsSay(left.imports, right.imports);
  }

  function ObjectCounts<V>(b: Bundle<V>): map<string, nat> {
    map m | m in b.modules :: b.modules[m].objectCount
  }

  function NotificationCounts<V>(b: Bundle<V>): map<string, nat> {
    map m | m in b.modules :: b.modules[m].notificationCount
  }

  /** The totals of records counted by the modules, the added and removed ones of whole modules and of
      the reported ones together. */
  ghost predicate TotalsOf(
      t: Totals, left: map<string, nat>, right: map<string, nat>,
      added: map<string, nat>, removed: map<string, nat>, changed: map<string, nat>)
  {
    && t.leftTotal == Sum(left.Keys, left) && t.rightTotal == Sum(right.Keys, right)
    && t.added == Sum(right.Keys - left.Keys, right) + Sum(added.Keys, added)
    && t.removed == Sum(left.Keys - right.Keys, left) + Sum(removed.Keys, removed)
    && t.changed == Sum(changed.Keys, changed)
  }

  lemma TotalsFromSizes<V(!new)>(
      t: Totals, left: Bundle<V>, right: Bundle<V>, kind: Kind, l: map<string, nat>, r: map<string, nat>,
      added: map<string, nat>, removed: map<string, nat>, changed: map<string, nat>)
    requires TotalsAre(t, left, right, kind)
    requires l == StoredCounts(left, kind) && r == StoredCounts(right, kind)
    requires var changes := ChangedModules(left, right);
      added == Sizes(changes, kind, Added) && removed == Sizes(changes, kind, Removed) && changed == Sizes(changes, kind, Changed)
    ensures TotalsOf(t, l, r, added, removed, changed)
  {}

  function ObjectSizes(changes: map<string, ModuleDiff>, names: NamedDiff -> set<string>): map<string, nat> {
    map m | m in changes :: |names(changes[m].objects)|
  }

  function NotificationSizes(changes: map<string, ModuleDiff>, names: NamedDiff -> set<string>): map<string, nat> {
    map m | m in changes :: |names(changes[m].notifications)|
  }

  lemma ObjectSizesByField(changes: map<string, ModuleDiff>)
    ensures Sizes(changes, Objects, Added) == ObjectSizes(changes, (d: NamedDiff) => d.added)
    ensures Sizes(changes, Objects, Removed) == ObjectSizes(changes, (d: NamedDiff) => d.removed)
    ensures Sizes(changes, Objects, Changed) == ObjectSizes(changes, (d: NamedDiff) => d.changed)
  {}

  lemma NotificationSizesByField(changes: map<string, ModuleDiff>)
    ensures Sizes(changes, Notifications, Added) == NotificationSizes(changes, (d: NamedDiff) => d.added)
    ensures Sizes(changes, Notifications, Removed) == NotificationSizes(changes, (d: NamedDiff) => d.removed)
    ensures Sizes(changes, Notifications, Changed) == NotificationSizes(changes, (d: NamedDiff) => d.changed)
  {}

  lemma ObjectTotals<V(!new)>(t: Totals, left: Bundle<V>, right: Bundle<V>)
    requires TotalsAre(t, left, right, Objects)
    ensures var changes := ChangedModules(left, right);
      TotalsOf(t, ObjectCounts(left), ObjectCounts(right),
        ObjectSizes(changes, (d: NamedDiff) => d.added),
        ObjectSizes(changes, (d: NamedDiff) => d.removed),
        ObjectSizes(changes, (d: NamedDiff) => d.changed))
  {
    var changes := ChangedModules(left, right);
    ObjectSizesByField(changes);
    TotalsFromSizes(t, left, right, Objects, ObjectCounts(left), ObjectCounts(right),
      ObjectSizes(changes, (d: NamedDiff) => d.added),
      ObjectSizes(changes, (d: NamedDiff) => d.removed),
      ObjectSizes(changes, (d: NamedDiff) => d.changed));
  }

  lemma NotificationTotals<V(!new)>(t: Totals, left: Bundle<V>, right: Bundle<V>)
    requires TotalsAre(t, left, right, Notifications)
    ensures var changes := ChangedModules(left, right);
      TotalsOf(t, NotificationCounts(left), NotificationCounts(right),
        NotificationSizes(changes, (d: NamedDiff) => d.added),
        NotificationSizes(changes, (d: NamedDiff) => d.removed),
        NotificationSizes(changes, (d: NamedDiff) => d.changed))
  {
    var changes := ChangedModules(left, right);
    NotificationSizesByField(changes);
    TotalsFromSizes(t, left, right, Notifications, NotificationCounts(left), NotificationCounts(right),
      NotificationSizes(changes, (d: NamedDiff) => d.added),
      NotificationSizes(changes, (d: NamedDiff) => d.removed),
      NotificationSizes(changes, (d: NamedDiff) => d.changed));
  }

  /** A module is reported exactly when both sides have it and its payloads differ, and its report
      says how. */
  lemma ReportedModules<V(!new)>(left: Bundle<V>, right: Bundle<V>, m: string)
    requires HasPayloads(left) && HasPayloads(right)
    ensures m in ChangedModules(left, right) <==>
      && m in left.modules && m in right.modules
      && !(left.payloads[m].objects == right.payloads[m].objects
           && left.payloads[m].notifications == right.payloads[m].notifications
           && SymbolSets(left.payloads[m].imports) == SymbolSets(right.payloads[m].imports))
    ensures m in ChangedModules(left, right) ==>
      SaysOfModule(ChangedModules(left, right)[m], left.payloads[m], right.payloads[m])
  {
    if m in left.modules && m in right.modules {
      OmittedExactlyWhenSame(left.payloads[m], right.payloads[m]);
      ModuleSays(left.payloads[m], right.payloads[m]);
    }
  }

  method CompareBundles<V(==,!new)>(left: Bundle<V>, right: Bundle<V>) returns (r: Result<BundleChange>)
    ensures r.Ok? && r.value.Identical? <==> left.hash.Some? && right.hash.Some? && left.hash.value == right.hash.value
    ensures r.Err? <==>
      (left.hash.None? || left.hash != right.hash)
      && exists m :: (m in left.modules && m !in left.payloads) || (m in right.modules && m !in right.payloads)
    ensures r.Ok? && r.value.Changes? ==>
      && r.value.modulesAdded == right.modules.Keys - left.modules.Keys
      && r.value.modulesRemoved == left.modules.Keys - right.modules.Keys
      && r.value.modulesChanged == ChangedModules(left, right)
      && r.value.modules == Totals(|left.modules.Keys|, |right.modules.Keys|,
           |r.value.modulesAdded|, |r.value.modulesRemoved|, |r.value.modulesChanged|)
      && TotalsAre(r.value.objects, left, right, Objects)
      && TotalsAre(r.value.notifications, left, right, Notifications)
  {
    if SameHash(left, right) {
      return Ok(Identical(left.hash.value));
    }
    if !HasPayloads(left) || !HasPayloads(right) {
      return Err("Compiled JSON for a module is missing.");
    }
    var added := right.modules.Keys - left.modules.Keys;
    var removed := left.modules.Keys - right.modules.Keys;
    var objects := StartTotals(left, right, Objects);
    var notifications := StartTotals(left, right, Notifications);
    var changes;
    changes, objects, notifications := CompareCommon(left, right, objects, notifications);
    var modules := Totals(|left.modules.Keys|, |right.modules.Keys|, |added|, |removed|, |changes|);
    r := Ok(Changes(added, removed, changes, modules, objects, notifications));
  }

  /* ---- the totals balance ---- */

  /** Stored counts describe the payloads, as compilation records them. */
  ghost predicate CountsMatch<V>(b: Bundle<V>) {
    && b.modules.Keys == b.payloads.Keys
    && forall m, kind | m in b.modules :: Stored(b.modules[m], kind) == |Items(b.payloads[m], kind)|
  }

  lemma NamedDiffBalances<V(!new)>(left: map<string, V>, right: map<string, V>)
    ensures var d := NamedMapDiff(left, right); |right| + |d.removed| == |left| + |d.added|
  {}

  /** Added or removed names per common module, changed or not. */
  function CommonSizes<V(==)>(left: Bundle<V>, right: Bundle<V>, kind: Kind, field: Field): map<string, nat>
    requires left.modules.Keys == left.payloads.Keys && right.modules.Keys == right.payloads.Keys
  {
    map m | m in left.modules && m in right.modules ::
      |Names(NamedMapDiff(Items(left.payloads[m], kind), Items(right.payloads[m], kind)), field)|
  }

  lemma SumOfNonZeros(f: map<string, nat>, g: map<string, nat>)
    requires g.Keys <= f.Keys
    requires forall m | m in f :: f[m] == if m in g then g[m] else 0
    ensures Sum(f.Keys, f) == Sum(g.Keys, g)
  {
    var rest := f.Keys - g.Keys;
    assert f.Keys == g.Keys + rest;
    SumSplit(g.Keys, rest, f);
    SumSkipsZeros(rest, f);
    SumAgrees(g.Keys, f, g);
  }

  lemma ReportedSize<V(!new)>(left: Payload<V>, right: Payload<V>, kind: Kind, field: Field)
    ensures |Names(NamedMapDiff(Items(left, kind), Items(right, kind)), field)| ==
      match DiffModule(left, right) case None => 0 case Some(d) => |Names(Part(d, kind), field)|
  {}

  /** Modules left out of the report contribute nothing. */
  lemma OmittedModulesAddNothing<V(!new)>(left: Bundle<V>, right: Bundle<V>, kind: Kind, field: Field)
    requires left.modules.Keys == left.payloads.Keys && right.modules.Keys == right.payloads.Keys
    ensures var sizes := CommonSizes(left, right, kind, field);
      Sum(sizes.Keys, sizes) == Tally(ChangedModules(left, right), kind, field)
  {
    var sizes, told := CommonSizes(left, right, kind, field), Sizes(ChangedModules(left, right), kind, field);
    forall m | m in sizes ensures sizes[m] == if m in told then told[m] else 0 {
      ReportedSize(left.payloads[m], right.payloads[m], kind, field);
    }
    SumOfNonZeros(sizes, told);
  }

  lemma SumPartition(f: map<string, nat>, others: set<string>)
    ensures Sum(f.Keys, f) == Sum(f.Keys * others, f) + Sum(f.Keys - others, f)
  {
    assert f.Keys == f.Keys * others + (f.Keys - others);
    SumSplit(f.Keys * others, f.Keys - others, f);
  }

  /** Totals over all names, given the balance on the common ones. */
  lemma SumsBalance(l: map<string, nat>, r: map<string, nat>, added: map<string, nat>, removed: map<string, nat>)
    requires added.Keys == removed.Keys == l.Keys * r.Keys
    requires forall m | m in added :: r[m] + removed[m] == l[m] + added[m]
    ensures Sum(r.Keys, r) + Sum(l.Keys - r.Keys, l) + Sum(removed.Keys, removed)
         == Sum(l.Keys, l) + Sum(r.Keys - l.Keys, r) + Sum(added.Keys, added)
  {
    var common := l.Keys * r.Keys;
    SumPartition(l, r.Keys);
    SumPartition(r, l.Keys);
    assert r.Keys * l.Keys == common;
    SumBalance(common, l, r, added, removed);
  }

  lemma CommonModulesBalance<V(!new)>(left: Bundle<V>, right: Bundle<V>, kind: Kind)
    requires CountsMatch(left) && CountsMatch(right)
    ensures var l, r := StoredCounts(left, kind), StoredCounts(right, kind);
      var added, removed := CommonSizes(left, right, kind, Added), CommonSizes(left, right, kind, Removed);
      && added.Keys == removed.Keys == l.Keys * r.Keys
      && forall m | m in added :: r[m] + removed[m] == l[m] + added[m]
  {
    forall m | m in left.modules && m in right.modules
      ensures var l, r := Items(left.payloads[m], kind), Items(right.payloads[m], kind);
        |r| + |NamedMapDiff(l, r).removed| == |l| + |NamedMapDiff(l, r).added|
    {
      NamedDiffBalances(Items(left.payloads[m], kind), Items(right.payloads[m], kind));
    }
  }

  /** right_total = left_total + added - removed, for objects and for notifications. */
  lemma TotalsBalance<V(!new)>(t: Totals, left: Bundle<V>, right: Bundle<V>, kind: Kind)
    requires CountsMatch(left) && CountsMatch(right) && TotalsAre(t, left, right, kind)
    ensures t.rightTotal == t.leftTotal + t.added - t.removed
  {
    CommonModulesBalance(left, right, kind);
    OmittedModulesAddNothing(left, right, kind, Added);
    OmittedModulesAddNothing(left, right, kind, Removed);
    SumsBalance(StoredCounts(left, kind), StoredCounts(right, kind),
      CommonSizes(left, right, kind, Added), CommonSizes(left, right, kind, Removed));
  }

  /** The module totals balance whatever the stored counts say. */
  lemma ModuleTotalsBalance<V(!new)>(left: Bundle<V>, right: Bundle<V>)
    ensures |right.modules.Keys| ==
      |left.modules.Keys| + |right.modules.Keys - left.modules.Keys| - |left.modules.Keys - right.modules.Keys|
  {}

  function MirrorChanges(changes: map<string, ModuleDiff>): map<string, ModuleDiff> {
    map m | m in changes :: MirrorModule(changes[m])
  }

  /** Swapping the sides of a whole comparison mirrors every reported module. */
  lemma SwapMirrorsChanges<V(!new)>(left: Bundle<V>, right: Bundle<V>)
    ensures ChangedModules(right, left) == MirrorChanges(ChangedModules(left, right))
  {
    var there, back := ChangedModules(left, right), ChangedModules(right, left);
    forall m ensures m in there <==> m in back {
      if m in left.payloads && m in right.payloads {
        SwapMirrorsModule(left.payloads[m], right.payloads[m]);
      }
    }
    forall m | m in there ensures m in back && back[m] == MirrorModule(there[m]) {
      SwapMirrorsModule(left.payloads[m], right.payloads[m]);
    }
    assert there.Keys == back.Keys;
  }

  function MirrorField(field: Field): Field {
    match field case Added => Removed case Removed => Added case Changed => Changed
  }

  lemma MirrorPart(d: ModuleDiff, kind: Kind, field: Field)
    ensures Names(Part(MirrorModule(d), kind), field) == Names(Part(d, kind), MirrorField(field))
  {}

  lemma MirrorTally(changes: map<string, ModuleDiff>, kind: Kind, field: Field)
    ensures Tally(MirrorChanges(changes), kind, field) == Tally(changes, kind, MirrorField(field))
  {
    var f, g := Sizes(MirrorChanges(changes), kind, field), Sizes(changes, kind, MirrorField(field));
    assert f.Keys == g.Keys == changes.Keys;
    forall m | m in changes ensures f[m] == g[m] {
      MirrorPart(changes[m], kind, field);
    }
    SumAgrees(changes.Keys, f, g);
  }

  function MirrorTotals(t: Totals): Totals {
    Totals(t.rightTotal, t.leftTotal, t.removed, t.added, t.changed)
  }

  lemma SwapMirrorsWholeModules<V(!new)>(left: Bundle<V>, right: Bundle<V>, kind: Kind)
    ensures WholeModules(right, left, kind) == MirrorTotals(WholeModules(left, right, kind))
  {}

  lemma MirrorAccumulated(t: Totals, u: Totals, start: Totals, changes: map<string, ModuleDiff>, kind: Kind)
    requires Accumulated(t, start, changes, kind)
    requires Accumulated(u, MirrorTotals(start), MirrorChanges(changes), kind)
    ensures u == MirrorTotals(t)
  {
    assert u.added == t.removed by {
      MirrorTally(changes, kind, Added);
    }
    assert u.removed == t.added by {
      MirrorTally(changes, kind, Removed);
    }
    assert u.changed == t.changed by {
      MirrorTally(changes, kind, Changed);
    }
  }

  /** Swapping the sides of a whole comparison swaps its totals, whatever the stored counts say. */
  lemma SwapMirrorsTotals<V(!new)>(t: Totals, u: Totals, left: Bundle<V>, right: Bundle<V>, kind: Kind)
    requires TotalsAre(t, left, right, kind) && TotalsAre(u, right, left, kind)
    ensures u == MirrorTotals(t)
  {
    SwapMirrorsWholeModules(left, right, kind);
    SwapMirrorsChanges(left, right);
    MirrorAccumulated(t, u, WholeModules(left, right, kind), ChangedModules(left, right), kind);
  }
}
