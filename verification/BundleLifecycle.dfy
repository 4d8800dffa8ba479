/** Compiled bundle sets: the rows, the two setting pointers and the bundle held in memory,
    under compile, activate and rollback. */
module BundleLifecycle {
  import opened Text

  datatype Status = Compiled | InUse

  datatype Row = Row(isActive: bool, status: Status)

  /** Committed rows, the active and previous pointers, and which row's data is loaded. */
  datatype State = State(
    rows: map<nat, Row>,
    active: Option<nat>,
    previous: Option<nat>,
    memory: Option<nat>,
    nextId: nat)

  const EMPTY := State(map[], None, None, None, 1)

  /** What the disk does during one activation. */
  datatype Disk = Disk(manifestExists: bool, dataLoads: bool)

  /* ---- specification ---- */

  function Flag(row: Row, isTarget: bool): Row {
    if isTarget then Row(true, InUse) else if row.isActive then Row(false, Compiled) else row
  }

  function FlagRows(rows: map<nat, Row>, target: nat): map<nat, Row> {
    map id | id in rows :: Flag(rows[id], id == target)
  }

  function Activate(s: State, target: nat, disk: Disk): Result<State> {
    if target !in s.rows then Err("Bundle set does not exist.")
    else if !disk.manifestExists then Err("Bundle set is missing manifest.json.")
    else if !disk.dataLoads then Err("Its compiled data could not be loaded.")
    else Ok(State(FlagRows(s.rows, target), Some(target), s.active, Some(target), s.nextId))
  }

  function Rollback(s: State, disk: Disk): Result<State> {
    if s.previous.None? then Err("No previous active bundle is available for rollback.")
    else Activate(s, s.previous.value, disk)
  }

  function AddCompiled(s: State): State {
    s.(rows := s.rows[s.nextId := Row(false, Compiled)], nextId := s.nextId + 1)
  }

  datatype Op =
    | CompileOp(compiles: bool, activate: bool, disk: Disk)
    | ActivateOp(target: nat, disk: Disk)
    | RollbackOp(disk: Disk)

  /** The state an operation leaves, and whether it reported success. */
  function Step(s: State, op: Op): (State, bool) {
    match op
    case CompileOp(compiles, activate, disk) =>
      if !compiles then (s, false)
      else
        var compiled := AddCompiled(s);
        if !activate then (compiled, true)
        else (match Activate(compiled, s.nextId, disk) case Ok(t) => (t, true) case Err(_) => (compiled, false))
    case ActivateOp(target, disk) =>
      (match Activate(s, target, disk) case Ok(t) => (t, true) case Err(_) => (s, false))
    case RollbackOp(disk) =>
      (match Rollback(s, disk) case Ok(t) => (t, true) case Err(_) => (s, false))
  }

  function Run(s: State, ops: seq<Op>): State {
    if ops == [] then s else Step(Run(s, ops[..|ops| - 1]), ops[|ops| - 1]).0
  }

  /* ---- the service ---- */

  class BundleService {
    var rows: map<nat, Row>
    var active: Option<nat>
    var previous: Option<nat>
    var memory: Option<nat>
    var nextId: nat

    function Contents(): State
      reads this
    {
      State(rows, active, previous, memory, nextId)
    }

    constructor ()
      ensures Contents() == EMPTY
    {
      rows, active, previous, memory, nextId := map[], None, None, None, 1;
    }

    /** Rows and pointers change in the session first; they are committed, and the loaded data
        published, only when the data loads. */
    method ActivateBundle(target: nat, disk: Disk) returns (r: Result<nat>)
      modifies this
      ensures match Activate(old(Contents()), target, disk)
        case Ok(t) => r == Ok(target) && Contents() == t
        case Err(e) => r == Err(e) && Contents() == old(Contents())
    {
      if target !in rows {
        return Err("Bundle set does not exist.");
      }
      if !disk.manifestExists {
        return Err("Bundle set is missing manifest.json.");
      }
      var currentActive := active;
      var staged := rows;
      var todo := rows.Keys;
      while todo != {}
        invariant todo <= rows.Keys && staged.Keys == rows.Keys
        invariant forall id | id in rows ::
          staged[id] == if id in todo then rows[id] else Flag(rows[id], id == target)
      {
        var id :| id in todo;
        if id == target {
          staged := staged[id := Row(true, InUse)];
        } else if staged[id].isActive {
          staged := staged[id := Row(false, Compiled)];
        }
        todo := todo - {id};
      }
      if !disk.dataLoads {
        return Err("Its compiled data could not be loaded.");
      }
      rows, previous, active := staged, currentActive, Some(target);
      memory := Some(target);
      r := Ok(target);
    }

    method RollbackBundle(disk: Disk) returns (r: Result<nat>)
      modifies this
      ensures match Rollback(old(Contents()), disk)
        case Ok(t) => r.Ok? && Contents() == t
        case Err(e) => r == Err(e) && Contents() == old(Contents())
    {
      if previous.None? {
        return Err("No previous active bundle is available for rollback.");
      }
      r := ActivateBundle(previous.value, disk);
    }

    method CompileBundle(compiles: bool, activate: bool, disk: Disk) returns (r: Result<nat>)
      modifies this
      ensures (Contents(), r.Ok?) == Step(old(Contents()), CompileOp(compiles, activate, disk))
      ensures r.Ok? ==> r.value == old(nextId)
    {
      if !compiles {
        return Err("tsmi compile failed");
      }
      var id := nextId;
      rows, nextId := rows[id := Row(false, Compiled)], nextId + 1;
      if activate {
        r := ActivateBundle(id, disk);
      } else {
        r := Ok(id);
      }
    }
  }

  /* ---- what every run keeps ---- */

  /** At most one row is active, and the row flags, the active pointer and the loaded bundle agree. */
  ghost predicate Valid(s: State) {
    && (forall id | id in s.rows :: id < s.nextId)
    && (forall id | id in s.rows :: s.rows[id].isActive <==> s.active == Some(id))
    && (forall id | id in s.rows :: s.rows[id].status == InUse <==> s.rows[id].isActive)
    && (s.active.Some? ==> s.active.value in s.rows)
    && s.memory == s.active
    && (s.previous.Some? ==> s.active.Some? && s.previous.value in s.rows)
  }

  lemma ActivateKeepsValid(s: State, target: nat, disk: Disk)
    requires Valid(s) && Activate(s, target, disk).Ok?
    ensures Valid(Activate(s, target, disk).value)
    ensures Activate(s, target, disk).value.rows.Keys == s.rows.Keys
  {}

  lemma AddCompiledKeepsValid(s: State)
    requires Valid(s)
    ensures Valid(AddCompiled(s))
  {}

  lemma StepKeepsValid(s: State, op: Op)
    requires Valid(s)
    ensures Valid(Step(s, op).0)
    ensures s.active.Some? ==> Step(s, op).0.active.Some?
    ensures s.rows.Keys <= Step(s, op).0.rows.Keys
  {
    match op
    case CompileOp(compiles, activate, disk) =>
      AddCompiledKeepsValid(s);
      if Activate(AddCompiled(s), s.nextId, disk).Ok? {
        ActivateKeepsValid(AddCompiled(s), s.nextId, disk);
      }
    case ActivateOp(target, disk) =>
      if Activate(s, target, disk).Ok? {
        ActivateKeepsValid(s, target, disk);
      }
    case RollbackOp(disk) =>
      if Rollback(s, disk).Ok? {
        ActivateKeepsValid(s, s.previous.value, disk);
      }
  }

  lemma {:induction false} RunsAgree(ops: seq<Op>)
    ensures Valid(Run(EMPTY, ops))
  {
    if ops != [] {
      RunsAgree(ops[..|ops| - 1]);
      StepKeepsValid(Run(EMPTY, ops[..|ops| - 1]), ops[|ops| - 1]);
    }
  }

  /** First in "is_active desc, id desc" order. */
  ghost predicate RuntimePicks(rows: map<nat, Row>, id: nat) {
    id in rows && forall other | other in rows && other != id ::
      (rows[id].isActive && !rows[other].isActive) || (rows[id].isActive == rows[other].isActive && id > other)
  }

  /** In every reachable state at most one row is active, and what is active is what is served. */
  lemma ReachableStatesServeTheActiveRow(ops: seq<Op>)
    ensures var s := Run(EMPTY, ops);
      && (forall a, b | a in s.rows && b in s.rows && s.rows[a].isActive && s.rows[b].isActive :: a == b)
      && s.memory == s.active
      && (s.active.Some? ==> RuntimePicks(s.rows, s.active.value))
  {
    RunsAgree(ops);
  }

  /** A failed operation never changes what is active, what is next to roll back to, or what is
      served; and unless it was a compile whose activation failed, it changes nothing at all. */
  lemma FailureIsAtomic(s: State, op: Op)
    requires !Step(s, op).1
    ensures var t := Step(s, op).0;
      t.active == s.active && t.previous == s.previous && t.memory == s.memory
    ensures forall id | id in s.rows && id != s.nextId ::
      id in Step(s, op).0.rows && Step(s, op).0.rows[id] == s.rows[id]
    ensures !(op.CompileOp? && op.compiles) ==> Step(s, op).0 == s
  {}

  /** Two successful rollbacks in a row restore the whole state. */
  lemma TwoRollbacksRestore(s: State, first: Disk, second: Disk)
    requires Valid(s) && Rollback(s, first).Ok? && Rollback(Rollback(s, first).value, second).Ok?
    ensures Rollback(Rollback(s, first).value, second).value == s
  {}

  /** Rolling back an activation restores rows, active pointer and memory. The rollback target
      itself comes back exactly when it was the bundle just activated, so re-activating the active
      bundle forgets the earlier one. */
  lemma RollbackUndoesActivation(s: State, target: nat, first: Disk, second: Disk)
    requires Valid(s) && s.active.Some?
    requires Activate(s, target, first).Ok? && Rollback(Activate(s, target, first).value, second).Ok?
    ensures var t := Rollback(Activate(s, target, first).value, second).value;
      && t.rows == s.rows && t.active == s.active && t.memory == s.memory
      && (t == s <==> s.previous == Some(target))
  {}

  /* ---- two lookups of the effective bundle ---- */

  ghost predicate HighestOf(ids: set<nat>, id: nat) {
    id in ids && forall other | other in ids :: other <= id
  }

  function ActiveIds(rows: map<nat, Row>): set<nat> {
    set id | id in rows && rows[id].isActive
  }

  /** The newest active row, else the newest row. */
  ghost predicate EffectivePicks(rows: map<nat, Row>, id: nat) {
    if ActiveIds(rows) != {} then HighestOf(ActiveIds(rows), id) else HighestOf(rows.Keys, id)
  }

  lemma {:induction false} HighestExists(ids: set<nat>) returns (id: nat)
    requires ids != {}
    ensures HighestOf(ids, id)
  {
    var first :| first in ids;
    id := first;
    if ids != {first} {
      var rest := HighestExists(ids - {first});
      id := if rest > first then rest else first;
      forall other | other in ids ensures other <= id {
        assert other == first || other in ids - {first};
      }
    }
  }

  /** On any table, valid or not, both lookups pick the same row, and a non-empty table has one. */
  lemma LookupsAgree(rows: map<nat, Row>)
    ensures forall id :: RuntimePicks(rows, id) <==> EffectivePicks(rows, id)
    ensures rows != map[] ==> exists id :: RuntimePicks(rows, id)
  {
    forall id ensures RuntimePicks(rows, id) <==> EffectivePicks(rows, id) {
      if ActiveIds(rows) != {} {
        var a :| a in ActiveIds(rows);
        assert RuntimePicks(rows, id) ==> id in ActiveIds(rows);
        assert forall other | other in rows :: rows[other].isActive ==> other in ActiveIds(rows);
      } else {
        forall other | other in rows ensures !rows[other].isActive {
          assert other !in ActiveIds(rows);
        }
      }
    }
    if rows != map[] {
      var w :| w in rows;
      var id := HighestExists(if ActiveIds(rows) != {} then ActiveIds(rows) else rows.Keys);
      assert EffectivePicks(rows, id);
    }
  }

  /** A compile whose activation fails leaves a new, newest row behind. The effective bundle moves
      to it exactly when nothing was active. */
  lemma FailedActivationMovesEffectiveBundle(s: State, disk: Disk)
    requires Valid(s) && !Step(s, CompileOp(true, true, disk)).1
    ensures var rows := Step(s, CompileOp(true, true, disk)).0.rows;
      && (RuntimePicks(rows, s.nextId) <==> s.active == None)
      && (forall id :: s.active == Some(id) ==> RuntimePicks(rows, id))
  {
    var rows := Step(s, CompileOp(true, true, disk)).0.rows;
    assert rows == AddCompiled(s).rows && s.nextId in rows;
    if s.active.Some? {
      assert s.active.value in rows && rows[s.active.value].isActive;
    }
  }

  /* ---- success and effect, field by field ---- */

  /** An activation succeeds exactly for an existing row with a manifest whose data loads. It flags
      that row alone, remembers what was active and serves the target. */
  lemma ActivateByField(s: State, target: nat, disk: Disk)
    ensures Activate(s, target, disk).Ok? <==> target in s.rows && disk.manifestExists && disk.dataLoads
    ensures Activate(s, target, disk).Ok? ==>
      var t := Activate(s, target, disk).value;
      && t.active == t.memory == Some(target) && t.previous == s.active && t.nextId == s.nextId
      && t.rows.Keys == s.rows.Keys && t.rows[target] == Row(true, InUse)
      && forall id | id in s.rows && id != target :: t.rows[id] == if s.rows[id].isActive then Row(false, Compiled) else s.rows[id]
  {}

  /** A rollback is the activation of the previous row, and fails without one. */
  lemma RollbackByField(s: State, disk: Disk)
    ensures s.previous == None ==> Rollback(s, disk).Err?
    ensures s.previous.Some? ==> Rollback(s, disk) == Activate(s, s.previous.value, disk)
  {}

  /** A compile that works adds one inactive row under the next id. */
  lemma CompileByField(s: State, disk: Disk)
    ensures Step(s, CompileOp(false, true, disk)) == (s, false)
    ensures var (t, ok) := Step(s, CompileOp(true, false, disk));
      && ok && t.rows == s.rows[s.nextId := Row(false, Compiled)] && t.nextId == s.nextId + 1
      && t.active == s.active && t.previous == s.previous && t.memory == s.memory
  {}
}
