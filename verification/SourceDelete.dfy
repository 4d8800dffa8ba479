/** Deleting uploaded sources: unlink, rebuild the active bundle, and put everything back when
    something fails. */
module SourceDelete {
  import opened Text
  import BundleLifecycle

  type Bytes = seq<int>

  /** The upload tree: managed paths and their contents. */
  type Files = map<string, Bytes>

  /** A file to delete, with the content read before anything is unlinked. */
  datatype Request = Request(path: string, content: Bytes)

  /** What happens outside: which unlinks the file system refuses, how the rebuild goes (none when
      there is nothing to compile or activate), which auto-fetched sources it then stores, and
      whether a step after the activation fails. */
  datatype World = World(
    refusedUnlinks: set<nat>,
    rebuild: Option<BundleLifecycle.Op>,
    fetched: Files,
    afterwardsFails: bool)

  datatype Stage = Refused | UnlinkFailed | RebuildFailed | AfterwardsFailed | Done

  /* ---- specification ---- */

  function Candidate(name: string): string {
    var s := Strip(name);
    seq(|s|, i requires 0 <= i < |s| => if s[i] == '\\' then '/' else s[i])
  }

  /** The requests of the distinct non-blank names, or the first name whose file is missing. */
  function Collect(names: seq<string>, files: Files, resolve: string -> string): Result<seq<Request>> {
    if names == [] then Ok([])
    else
      var n := |names| - 1;
      match Collect(names[..n], files, resolve)
      case Err(e) => Err(e)
      case Ok(requests) =>
        var c := Candidate(names[n]);
        if c == [] || (exists k | 0 <= k < n :: Candidate(names[k]) == c) then Ok(requests)
        else if resolve(c) !in files then Err("MIB file does not exist.")
        else Ok(requests + [Request(resolve(c), files[resolve(c)])])
  }

  function Paths(requests: seq<Request>): set<string> {
    set r | r in requests :: r.path
  }

  /** Unlinking all of them fails when the file system refuses one, or when two spellings of one
      path were requested, because the second finds the file gone. */
  predicate UnlinksSucceed(requests: seq<Request>, refused: set<nat>) {
    && (forall k | 0 <= k < |requests| :: k !in refused)
    && (forall i, j | 0 <= i < j < |requests| :: requests[i].path != requests[j].path)
  }

  function RebuildState(s: BundleLifecycle.State, w: World): (BundleLifecycle.State, bool) {
    match w.rebuild case None => (s, true) case Some(op) => BundleLifecycle.Step(s, op)
  }

  function RebuildStage(s: BundleLifecycle.State, w: World): Stage {
    if !RebuildState(s, w).1 then RebuildFailed else if w.afterwardsFails then AfterwardsFailed else Done
  }

  function StageOf(requests: Result<seq<Request>>, s: BundleLifecycle.State, w: World): Stage {
    if requests.Err? || requests.value == [] then Refused
    else if !UnlinksSucceed(requests.value, w.refusedUnlinks) then UnlinkFailed
    else RebuildStage(s, w)
  }

  /** The upload tree after a deletion that got as far as a stage. */
  function FilesAfter(files: Files, requests: Result<seq<Request>>, w: World, stage: Stage): Files {
    match stage
    case AfterwardsFailed => files + w.fetched
    case Done => if requests.Ok? then (files - Paths(requests.value)) + w.fetched else files
    case _ => files
  }

  /** The bundle state after that stage. */
  function BundlesAfter(s: BundleLifecycle.State, w: World, stage: Stage): BundleLifecycle.State {
    if stage.Refused? || stage.UnlinkFailed? then s else RebuildState(s, w).0
  }

  /* ---- restoring ---- */

  /** The requests hold the contents the files had. */
  predicate Saved(requests: seq<Request>, files: Files) {
    forall k | 0 <= k < |requests| :: requests[k].path in files && files[requests[k].path] == requests[k].content
  }

  lemma {:induction false} CollectedAreSaved(names: seq<string>, files: Files, resolve: string -> string)
    ensures Collect(names, files, resolve).Ok? ==> Saved(Collect(names, files, resolve).value, files)
  {
    if names != [] {
      CollectedAreSaved(names[..|names| - 1], files, resolve);
    }
  }

  lemma {:induction false} CollectStopsAtMissing(names: seq<string>, files: Files, resolve: string -> string, i: nat)
    requires i <= |names| && Collect(names[..i], files, resolve).Err?
    ensures Collect(names, files, resolve) == Collect(names[..i], files, resolve)
  {
    if i < |names| {
      assert names[..|names| - 1][..i] == names[..i];
      CollectStopsAtMissing(names[..|names| - 1], files, resolve, i);
    } else {
      assert names[..i] == names;
    }
  }

  /** The names among the first n, in the form that is resolved. */
  function Seen(names: seq<string>, n: nat): set<string>
    requires n <= |names|
  {
    set k | 0 <= k < n && Candidate(names[k]) != [] :: Candidate(names[k])
  }

  lemma CollectStep(names: seq<string>, files: Files, resolve: string -> string, i: nat, requests: seq<Request>)
    requires i < |names| && Collect(names[..i], files, resolve) == Ok(requests)
    ensures var c := Candidate(names[i]);
      Collect(names[..i + 1], files, resolve) ==
        if c == [] || c in Seen(names, i) then Ok(requests)
        else if resolve(c) !in files then Err("MIB file does not exist.")
        else Ok(requests + [Request(resolve(c), files[resolve(c)])])
  {
    var some := names[..i + 1];
    assert some[..i] == names[..i];
    var c := Candidate(names[i]);
    assert c != [] ==> (c in Seen(names, i) <==> exists k | 0 <= k < i :: Candidate(some[k]) == c);
  }

  /* ---- what a deletion asks for, in the names' own terms ---- */

  /** c is the stripped name with forward slashes, and not blank. */
  predicate IsCandidate(name: string, c: string) {
    && |c| == |Strip(name)| > 0
    && forall i | 0 <= i < |c| :: c[i] == if Strip(name)[i] == '\\' then '/' else Strip(name)[i]
  }

  lemma CandidateText(name: string, c: string)
    ensures IsCandidate(name, c) <==> c == Candidate(name) && c != []
  {}

  /** Some name asks for the path. */
  ghost predicate Requested(names: seq<string>, resolve: string -> string, path: string) {
    exists k, c | 0 <= k < |names| && IsCandidate(names[k], c) :: resolve(c) == path
  }

  lemma RequestedByLast(names: seq<string>, resolve: string -> string, path: string)
    requires names != []
    ensures var n := |names| - 1;
      Requested(names, resolve, path) <==>
        Requested(names[..n], resolve, path) || (Candidate(names[n]) != [] && resolve(Candidate(names[n])) == path)
  {
    var n := |names| - 1;
    if k, c :| 0 <= k < |names| && IsCandidate(names[k], c) && resolve(c) == path {
      CandidateText(names[k], c);
      assert k < n ==> names[..n][k] == names[k];
    }
    if Candidate(names[n]) != [] && resolve(Candidate(names[n])) == path {
      CandidateText(names[n], Candidate(names[n]));
    }
    if Requested(names[..n], resolve, path) {
      var k, c :| 0 <= k < n && IsCandidate(names[..n][k], c) && resolve(c) == path;
      assert names[..n][k] == names[k];
    }
  }

  lemma RepeatedIsRequested(names: seq<string>, resolve: string -> string, c: string)
    requires c != [] && exists k | 0 <= k < |names| :: Candidate(names[k]) == c
    ensures Requested(names, resolve, resolve(c))
  {
    var k :| 0 <= k < |names| && Candidate(names[k]) == c;
    CandidateText(names[k], c);
  }

  /** The last name adds its path, if any, to those already collected. */
  lemma CollectOneMore(names: seq<string>, files: Files, resolve: string -> string)
    requires names != []
    ensures var n := |names| - 1;
      var before, c := Collect(names[..n], files, resolve), Candidate(names[n]);
      && (Collect(names, files, resolve).Ok? <==>
            before.Ok? && (c == [] || (exists k | 0 <= k < n :: Candidate(names[k]) == c) || resolve(c) in files))
      && (Collect(names, files, resolve).Ok? ==>
            Paths(Collect(names, files, resolve).value) == Paths(before.value)
              + if c == [] || (exists k | 0 <= k < n :: Candidate(names[k]) == c) then {} else {resolve(c)})
  {}

  /** The requested paths are those of the names, and a list is refused exactly for a missing file. */
  lemma {:induction false} CollectedPaths(names: seq<string>, files: Files, resolve: string -> string)
    ensures Collect(names, files, resolve).Ok? <==> forall path | Requested(names, resolve, path) :: path in files
    ensures Collect(names, files, resolve).Ok? ==>
      forall path :: path in Paths(Collect(names, files, resolve).value) <==> Requested(names, resolve, path)
  {
    if names != [] {
      var n := |names| - 1;
      CollectedPaths(names[..n], files, resolve);
      forall path ensures Requested(names, resolve, path) <==>
        Requested(names[..n], resolve, path) || (Candidate(names[n]) != [] && resolve(Candidate(names[n])) == path)
      {
        RequestedByLast(names, resolve, path);
      }
      CollectOneMore(names, files, resolve);
      var c := Candidate(names[n]);
      if c != [] && exists k | 0 <= k < n :: Candidate(names[..n][k]) == c {
        RepeatedIsRequested(names[..n], resolve, c);
      }
    }
  }

  /** The tree after a deletion, path by path. */
  ghost predicate TreeAfter(before: Files, after: Files, names: seq<string>, resolve: string -> string, w: World, stage: Stage) {
    match stage
    case Done =>
      && (forall p :: p in after <==> p in w.fetched || (p in before && !Requested(names, resolve, p)))
      && (forall p | p in after :: after[p] == if p in w.fetched then w.fetched[p] else before[p])
    case AfterwardsFailed =>
      && (forall p :: p in after <==> p in w.fetched || p in before)
      && (forall p | p in after :: after[p] == if p in w.fetched then w.fetched[p] else before[p])
    case _ => after == before
  }

  lemma TreeAfterDeletion(files: Files, names: seq<string>, resolve: string -> string, w: World, stage: Stage)
    requires stage.Done? ==> Collect(names, files, resolve).Ok?
    ensures TreeAfter(files, FilesAfter(files, Collect(names, files, resolve), w, stage), names, resolve, w, stage)
  {
    CollectedPaths(names, files, resolve);
  }

  /** Nothing is deleted when no name asks for a file, or one asks for a file that is not there. */
  ghost predicate NothingToDelete(names: seq<string>, files: Files, resolve: string -> string) {
    (forall p :: !Requested(names, resolve, p)) || (exists p :: Requested(names, resolve, p) && p !in files)
  }

  lemma RefusedExactlyWhen(names: seq<string>, files: Files, resolve: string -> string)
    ensures var requests := Collect(names, files, resolve);
      requests.Err? || requests.value == [] <==> NothingToDelete(names, files, resolve)
  {
    CollectedPaths(names, files, resolve);
    var requests := Collect(names, files, resolve);
    if requests.Ok? && requests.value != [] {
      assert requests.value[0].path in Paths(requests.value);
    }
  }

  /** The bundles after a deletion, field by field. */
  predicate BundlesLeft(before: BundleLifecycle.State, after: BundleLifecycle.State, w: World, stage: Stage) {
    match stage
    case Refused => after == before
    case UnlinkFailed => after == before
    case RebuildFailed => after.active == before.active && after.previous == before.previous && after.memory == before.memory
    case _ =>
      match w.rebuild
      case None => after == before
      case Some(CompileOp(_, activate, _)) =>
        if activate then after.active == after.memory == Some(before.nextId) && after.previous == before.active
        else after.active == before.active && after.previous == before.previous && after.memory == before.memory
      case Some(ActivateOp(target, _)) => after.active == after.memory == Some(target) && after.previous == before.active
      case Some(RollbackOp(_)) => after.active == after.memory == before.previous && after.previous == before.active
  }

  lemma BundlesLeftAfter(s: BundleLifecycle.State, w: World, stage: Stage)
    requires stage.RebuildFailed? || stage.AfterwardsFailed? || stage.Done? ==> stage == RebuildStage(s, w)
    ensures BundlesLeft(s, BundlesAfter(s, w, stage), w, stage)
  {}

  /** The stage, the tree and the bundles of a deletion in the names' own terms. */
  lemma DeletionByNames(
      names: seq<string>, files: Files, resolve: string -> string, w: World, s: BundleLifecycle.State)
    ensures var requests := Collect(names, files, resolve);
      var stage := StageOf(requests, s, w);
      && (stage.Refused? <==> NothingToDelete(names, files, resolve))
      && TreeAfter(files, FilesAfter(files, requests, w, stage), names, resolve, w, stage)
      && BundlesLeft(s, BundlesAfter(s, w, stage), w, stage)
  {
    RefusedExactlyWhen(names, files, resolve);
    TreeAfterDeletion(files, names, resolve, w, StageOf(Collect(names, files, resolve), s, w));
    BundlesLeftAfter(s, w, StageOf(Collect(names, files, resolve), s, w));
  }

  /** A deletion without reload rebuilds and fetches nothing. */
  function Effective(w: World, reload: bool): World {
    if reload then w else World(w.refusedUnlinks, None, map[], false)
  }

  /* ---- the service ---- */

  class MutationService {
    var files: Files
    const bundles: BundleLifecycle.BundleService
    const resolve: string -> string

    constructor (bundles: BundleLifecycle.BundleService, resolve: string -> string)
      ensures files == map[] && this.bundles == bundles && this.resolve == resolve
    {
      files := map[];
      this.bundles := bundles;
      this.resolve := resolve;
    }

    method CollectDeleteRequests(names: seq<string>) returns (r: Result<seq<Request>>)
      ensures r == Collect(names, files, resolve)
    {
      var requested: seq<Request> := [];
      var seen: set<string> := {};
      for i := 0 to |names|
        invariant Collect(names[..i], files, resolve) == Ok(requested)
        invariant seen == Seen(names, i)
      {
        CollectStep(names, files, resolve, i, requested);
        var c := Candidate(names[i]);
        if c == [] || c in seen {
          continue;
        }
        if resolve(c) !in files {
          CollectStopsAtMissing(names, files, resolve, i + 1);
          return Err("MIB file does not exist.");
        }
        requested := requested + [Request(resolve(c), files[resolve(c)])];
        seen := seen + {c};
      }
      assert names[..|names|] == names;
      r := Ok(requested);
    }

    /** Unlinks one after another, stopping at the first that fails. */
    method UnlinkAll(requests: seq<Request>, refused: set<nat>) returns (ok: bool)
      requires Saved(requests, files)
      modifies this`files
      ensures ok <==> UnlinksSucceed(requests, refused)
      ensures ok ==> files == old(files) - Paths(requests)
      ensures exists gone :: gone <= Paths(requests) && files == old(files) - gone
    {
      ghost var gone: set<string> := {};
      for i := 0 to |requests|
        invariant gone == Paths(requests[..i]) && gone <= Paths(requests)
        invariant files == old(files) - gone
        invariant forall k | 0 <= k < i :: k !in refused
        invariant forall j, k | 0 <= j < k < i :: requests[j].path != requests[k].path
      {
        if i in refused || requests[i].path !in files {
          if i !in refused {
            assert requests[i].path in gone;
          }
          return false;
        }
        files := files - {requests[i].path};
        assert requests[..i + 1] == requests[..i] + [requests[i]];
        gone := gone + {requests[i].path};
        forall j | 0 <= j < i ensures requests[j].path != requests[i].path {
          assert requests[j] in requests[..i];
        }
      }
      assert requests[..|requests|] == requests;
      ok := true;
    }

    /** Rewrites every requested file that does not exist. */
    method RestoreDeletedSources(requests: seq<Request>, ghost original: Files)
      requires Saved(requests, original)
      requires forall p | p in original && p !in files :: p in Paths(requests)
      modifies this`files
      ensures files == original + old(files)
    {
      for i := 0 to |requests|
        invariant forall p | p in old(files) :: p in files && files[p] == old(files)[p]
        invariant forall p | p in files :: p in old(files) || (p in original && files[p] == original[p])
        invariant forall k | 0 <= k < i :: requests[k].path in files
      {
        if requests[i].path !in files {
          files := files[requests[i].path := requests[i].content];
        }
      }
      forall p | p in original ensures p in files {
        if p !in old(files) {
          var k :| 0 <= k < |requests| && requests[k].path == p;
        }
      }
    }

    method Rebuild(w: World) returns (ok: bool)
      modifies this`files, bundles
      ensures (bundles.Contents(), ok) == RebuildState(old(bundles.Contents()), w)
      ensures files == if ok then old(files) + w.fetched else old(files)
    {
      ok := true;
      match w.rebuild {
        case None =>
        case Some(CompileOp(compiles, activate, disk)) =>
          var r := bundles.CompileBundle(compiles, activate, disk);
          ok := r.Ok?;
        case Some(ActivateOp(target, disk)) =>
          var r := bundles.ActivateBundle(target, disk);
          ok := r.Ok?;
        case Some(RollbackOp(disk)) =>
          var r := bundles.RollbackBundle(disk);
          ok := r.Ok?;
      }
      if ok {
        files := files + w.fetched;
      }
    }

    /** Rebuilds after the unlinks, and puts the sources back when that or a later step fails. */
    method RebuildOrRestore(requests: seq<Request>, w: World, ghost original: Files) returns (stage: Stage)
      requires Saved(requests, original) && files == original - Paths(requests)
      modifies this`files, bundles
      ensures bundles.Contents() == RebuildState(old(bundles.Contents()), w).0
      ensures stage == RebuildStage(old(bundles.Contents()), w)
      ensures files == FilesAfter(original, Ok(requests), w, stage)
    {
      var rebuilt := Rebuild(w);
      if rebuilt && !w.afterwardsFails {
        return Done;
      }
      RestoreDeletedSources(requests, original);
      stage := if rebuilt then AfterwardsFailed else RebuildFailed;
    }

    method DeleteUploadedMibs(names: seq<string>, w: World) returns (stage: Stage)
      modifies this`files, bundles
      ensures stage == StageOf(Collect(names, old(files), resolve), old(bundles.Contents()), w)
      ensures files == FilesAfter(old(files), Collect(names, old(files), resolve), w, stage)
      ensures bundles.Contents() == BundlesAfter(old(bundles.Contents()), w, stage)
      ensures stage.Refused? <==> NothingToDelete(names, old(files), resolve)
      ensures TreeAfter(old(files), files, names, resolve, w, stage)
      ensures BundlesLeft(old(bundles.Contents()), bundles.Contents(), w, stage)
    {
      DeletionByNames(names, files, resolve, w, bundles.Contents());
      var requested := CollectDeleteRequests(names);
      CollectedAreSaved(names, files, resolve);
      if requested.Err? || requested.value == [] {
        return Refused;
      }
      var unlinked := UnlinkAll(requested.value, w.refusedUnlinks);
      if !unlinked {
        RestoreDeletedSources(requested.value, old(files));
        assert files == old(files);
        return UnlinkFailed;
      }
      stage := RebuildOrRestore(requested.value, w, old(files));
    }

    /** One file, with an optional rebuild; its unlink is not guarded, but nothing precedes it. */
    method DeleteUploadedMib(name: string, reload: bool, w: World) returns (stage: Stage)
      modifies this`files, bundles
      ensures var requests := Collect([name], old(files), resolve);
        var world := Effective(w, reload);
        && stage == StageOf(requests, old(bundles.Contents()), world)
        && files == FilesAfter(old(files), requests, world, stage)
        && bundles.Contents() == BundlesAfter(old(bundles.Contents()), world, stage)
      ensures stage.Refused? <==> NothingToDelete([name], old(files), resolve)
      ensures TreeAfter(old(files), files, [name], resolve, Effective(w, reload), stage)
      ensures BundlesLeft(old(bundles.Contents()), bundles.Contents(), Effective(w, reload), stage)
    {
      DeletionByNames([name], files, resolve, Effective(w, reload), bundles.Contents());
      var requested := CollectDeleteRequests([name]);
      CollectedAreSaved([name], files, resolve);
      if requested.Err? || requested.value == [] {
        return Refused;
      }
      assert [name][..0] == [];
      assert |requested.value| == 1;
      if 0 in w.refusedUnlinks {
        return UnlinkFailed;
      }
      files := files - {requested.value[0].path};
      assert Paths(requested.value) == {requested.value[0].path};
      if !reload {
        return Done;
      }
      stage := RebuildOrRestore(requested.value, w, old(files));
    }
  }

  /* ---- all or nothing ---- */

  /** The disk lets a bundle be activated. */
  predicate Loads(disk: BundleLifecycle.Disk) {
    disk.manifestExists && disk.dataLoads
  }

  /** The rebuild succeeds: it compiles, and what it activates exists and loads. */
  predicate RebuildWorks(s: BundleLifecycle.State, w: World) {
    match w.rebuild
    case None => true
    case Some(CompileOp(compiles, activate, disk)) => compiles && (activate ==> Loads(disk))
    case Some(ActivateOp(target, disk)) => target in s.rows && Loads(disk)
    case Some(RollbackOp(disk)) => s.previous.Some? && s.previous.value in s.rows && Loads(disk)
  }

  /** The row the rebuild is to activate. */
  function ToActivate(s: BundleLifecycle.State, w: World): Option<nat> {
    match w.rebuild
    case None => None
    case Some(CompileOp(_, activate, _)) => if activate then Some(s.nextId) else None
    case Some(ActivateOp(target, _)) => Some(target)
    case Some(RollbackOp(_)) => s.previous
  }

  /** Every requested file can be unlinked, and there is one. */
  predicate UnlinksReached(requests: Result<seq<Request>>, w: World) {
    requests.Ok? && requests.value != [] && UnlinksSucceed(requests.value, w.refusedUnlinks)
  }

  lemma RebuildWorksExactlyWhen(s: BundleLifecycle.State, w: World)
    ensures RebuildState(s, w).1 <==> RebuildWorks(s, w)
    ensures var t := RebuildState(s, w).0;
      if RebuildWorks(s, w) && ToActivate(s, w).Some? then t.active == t.memory == ToActivate(s, w)
      else t.active == s.active && t.memory == s.memory
  {}

  /** A deletion succeeds exactly when the unlinks, the rebuild and the steps after it do. */
  lemma DeleteSucceedsExactlyWhen(requests: Result<seq<Request>>, s: BundleLifecycle.State, w: World)
    ensures StageOf(requests, s, w) == Done <==> UnlinksReached(requests, w) && RebuildWorks(s, w) && !w.afterwardsFails
  {
    RebuildWorksExactlyWhen(s, w);
  }

  /** What is fetched adds or changes a file. */
  predicate FetchesNew(files: Files, w: World) {
    exists p | p in w.fetched :: !(p in files && files[p] == w.fetched[p])
  }

  lemma FetchedAddsExactlyWhen(files: Files, w: World)
    ensures files + w.fetched == files <==> !FetchesNew(files, w)
  {
    if FetchesNew(files, w) {
      var p :| p in w.fetched && !(p in files && files[p] == w.fetched[p]);
      assert p in files + w.fetched && (files + w.fetched)[p] == w.fetched[p];
    }
  }

  /** A failed deletion leaves the source tree as it was, exactly unless the unlinks and the rebuild
      went through and the rebuild fetched something new. */
  lemma FailedDeleteRestoresExactlyWhen(files: Files, requests: Result<seq<Request>>, s: BundleLifecycle.State, w: World)
    requires !(UnlinksReached(requests, w) && RebuildWorks(s, w) && !w.afterwardsFails)
    ensures FilesAfter(files, requests, w, StageOf(requests, s, w)) == files <==>
      !(UnlinksReached(requests, w) && RebuildWorks(s, w) && FetchesNew(files, w))
  {
    RebuildWorksExactlyWhen(s, w);
    FetchedAddsExactlyWhen(files, w);
  }

  /** A failed deletion leaves the active and the served bundle alone, exactly unless the unlinks and
      the rebuild went through and the rebuild activated a row other than the active one. */
  lemma FailedDeleteKeepsActiveExactlyWhen(requests: Result<seq<Request>>, s: BundleLifecycle.State, w: World)
    requires BundleLifecycle.Valid(s)
    requires !(UnlinksReached(requests, w) && RebuildWorks(s, w) && !w.afterwardsFails)
    ensures var t := BundlesAfter(s, w, StageOf(requests, s, w));
      t.active == s.active && t.memory == s.memory <==>
        !(UnlinksReached(requests, w) && RebuildWorks(s, w) && ToActivate(s, w).Some? && ToActivate(s, w) != s.active)
  {
    RebuildWorksExactlyWhen(s, w);
  }

  /** A deletion that failed at an unlink, a compile or an activation changes neither what is active
      or served nor the rollback target, and no bundle row but the freshly compiled one. */
  lemma FailedDeleteKeepsActiveBundle(requests: Result<seq<Request>>, s: BundleLifecycle.State, w: World)
    requires !(UnlinksReached(requests, w) && RebuildWorks(s, w))
    ensures var t := BundlesAfter(s, w, StageOf(requests, s, w));
      && t.active == s.active && t.previous == s.previous && t.memory == s.memory
      && (forall id | id in s.rows && id != s.nextId :: id in t.rows && t.rows[id] == s.rows[id])
  {
    RebuildWorksExactlyWhen(s, w);
  }

  /** A deletion whose rebuild compiled and activated a new bundle, and then failed: the new bundle
      stays active. */
  lemma LateFailureKeepsNewBundle(requests: Result<seq<Request>>, s: BundleLifecycle.State, w: World)
    requires BundleLifecycle.Valid(s) && w.afterwardsFails && UnlinksReached(requests, w)
    requires w.rebuild == Some(BundleLifecycle.CompileOp(true, true, BundleLifecycle.Disk(true, true)))
    ensures var t := BundlesAfter(s, w, StageOf(requests, s, w));
      t.active == t.memory == Some(s.nextId) && t.active != s.active
  {
    RebuildWorksExactlyWhen(s, w);
  }
}
