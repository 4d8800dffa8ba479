/** The simulator's responder: start, stop and restart in place, interleaved with the exits of
    background tasks. A responder is identified by the order in which it was created. */
module Responder {
  import opened Text

  datatype Binding = Binding(host: string, port: int, communities: Option<seq<string>>, bundleId: Option<nat>)

  /** The service's fields. latest and finished are history: the last responder installed, and the
      responders whose background task has ended. */
  datatype State<O, R> = State(
    responder: Option<nat>,
    task: Option<nat>,
    source: Option<nat>,
    binding: Option<Binding>,
    objects: seq<O>,
    rules: seq<R>,
    lastError: Option<string>,
    requests: nat,
    nextId: nat,
    latest: Option<nat>,
    finished: set<nat>)

  /** What a responder's background task does between two awaits of the service: it answers a
      request, meets a value it cannot encode, records the error it dies of, or runs its cleanup and
      ends. Only the last two look at which responder is installed. */
  datatype Event = Served(id: nat) | Unencodable(id: nat) | Fault(id: nat, error: string) | Finish(id: nat)

  const ENCODE_ERROR: string := "Simulator response could not be encoded for a requested OID."

  datatype Request<O, R> = Request(
    host: string,
    port: int,
    communities: Option<seq<string>>,
    objects: Option<seq<O>>,
    rules: Option<seq<R>>,
    bundleId: Option<nat>)

  /** One start: does the request parse, do the bind attempts succeed, and which background events
      fall into each wait. */
  datatype World = World(
    parses: bool,
    opens: bool,
    reopens: bool,
    whileOpening: seq<Event>,
    whileFreeing: seq<Event>,
    whileReopening: seq<Event>,
    whileReplacing: seq<Event>)

  /* ---- specification ---- */

  function React<O, R>(s: State<O, R>, e: Event): State<O, R> {
    match e
    case Served(_) => s.(requests := s.requests + 1)
    case Unencodable(_) => s.(lastError := Some(ENCODE_ERROR))
    case Fault(id, error) => if s.responder == Some(id) then s.(lastError := Some(error)) else s
    case Finish(id) =>
      var t := if s.responder == Some(id) then s.(responder := None, task := None, source := None) else s;
      t.(finished := t.finished + {id})
  }

  function ReactAll<O, R>(s: State<O, R>, es: seq<Event>): State<O, R> {
    if es == [] then s else React(ReactAll(s, es[..|es| - 1]), es[|es| - 1])
  }

  function Cleared<O, R>(s: State<O, R>, clearError: bool): State<O, R> {
    s.(responder := None, task := None, source := None, lastError := if clearError then None else s.lastError)
  }

  function Shutdown<O, R>(s: State<O, R>, clearError: bool, es: seq<Event>): State<O, R> {
    ReactAll(Cleared(s, clearError), es)
  }

  predicate SameAddress<O, R>(s: State<O, R>, host: string, port: int) {
    s.binding.Some? && s.binding.value.port == port
    && (s.binding.value.host == host || host == "0.0.0.0" || host == "")
  }

  function Chosen<T>(given: Option<seq<T>>, current: seq<T>): seq<T> {
    if given.Some? then given.value else current
  }

  function Install<O, R>(s: State<O, R>, q: Request<O, R>, id: nat, objects: seq<O>, rules: seq<R>): State<O, R> {
    s.(responder := Some(id), task := Some(id),
       source := if rules != [] then Some(id) else None,
       binding := Some(Binding(q.host, q.port, q.communities, q.bundleId)),
       objects := objects, rules := rules, lastError := None, requests := 0, latest := Some(id))
  }

  /** The state after opening the new responder's socket, and whether it is open. */
  function Opened<O, R>(s: State<O, R>, q: Request<O, R>, w: World): (State<O, R>, bool) {
    var first := ReactAll(s.(nextId := s.nextId + 1), w.whileOpening);
    if w.opens then (first, true)
    else if !SameAddress(first, q.host, q.port) then (first, false)
    else (ReactAll(Shutdown(first, false, w.whileFreeing), w.whileReopening), w.reopens)
  }

  function Start<O, R>(s: State<O, R>, q: Request<O, R>, w: World): (State<O, R>, bool) {
    if !w.parses then (s, false)
    else
      var (t, open) := Opened(s, q, w);
      if !open then (t, false)
      else
        var ready := Shutdown(t, false, w.whileReplacing);
        (Install(ready, q, s.nextId, Chosen(q.objects, s.objects), Chosen(q.rules, s.rules)), true)
  }

  /** A request to change the served objects: whether it parses, and whether the running responder
      takes the parsed objects. */
  datatype Change<O> = Change(parses: bool, specs: seq<O>, replace: bool, activeBundle: Option<nat>, taken: bool)

  datatype Op<O, R> =
    | StartOp(request: Request<O, R>, world: World)
    | StopOp(events: seq<Event>)
    | SetObjectsOp(change: Change<O>)
    | BackgroundOp(event: Event)

  /** A responder bound under an older active bundle refuses new objects. */
  predicate StaleBinding<O, R>(s: State<O, R>, activeBundle: Option<nat>) {
    s.binding.Some? && s.binding.value.bundleId.Some? && activeBundle.Some? && activeBundle != s.binding.value.bundleId
  }

  /** The configured objects change before the responder is asked to take them. */
  function SetObjects<O, R>(s: State<O, R>, c: Change<O>): (State<O, R>, bool) {
    if !c.parses || StaleBinding(s, c.activeBundle) then (s, false)
    else
      (s.(objects := if c.replace then c.specs else s.objects + c.specs),
       (s.responder.None? && s.source.None?) || c.taken)
  }

  function Step<O, R>(s: State<O, R>, op: Op<O, R>): State<O, R> {
    match op
    case StartOp(q, w) => Start(s, q, w).0
    case StopOp(es) => Shutdown(s, true, es)
    case SetObjectsOp(c) => SetObjects(s, c).0
    case BackgroundOp(e) => React(s, e)
  }

  function Run<O, R>(s: State<O, R>, ops: seq<Op<O, R>>): State<O, R> {
    if ops == [] then s else Step(Run(s, ops[..|ops| - 1]), ops[|ops| - 1])
  }

  function Fresh<O, R>(): State<O, R> {
    State(None, None, None, None, [], [], None, 0, 0, None, {})
  }

  /* ---- the service ---- */

  class RuntimeService<O, R> {
    var responder: Option<nat>
    var task: Option<nat>
    var source: Option<nat>
    var binding: Option<Binding>
    var objects: seq<O>
    var rules: seq<R>
    var lastError: Option<string>
    var requests: nat
    var nextId: nat
    ghost var latest: Option<nat>
    ghost var finished: set<nat>

    ghost function Contents(): State<O, R>
      reads this
    {
      State(responder, task, source, binding, objects, rules, lastError, requests, nextId, latest, finished)
    }

    constructor ()
      ensures Contents() == Fresh()
    {
      responder, task, source, binding := None, None, None, None;
      objects, rules, lastError, requests, nextId := [], [], None, 0, 0;
      latest, finished := None, {};
    }

    /** The request hooks, and the except and finally blocks, of the background task. */
    method RunResponder(e: Event)
      modifies this
      ensures Contents() == React(old(Contents()), e)
    {
      match e {
        case Served(_) =>
          requests := requests + 1;
        case Unencodable(_) =>
          lastError := Some(ENCODE_ERROR);
        case Fault(id, error) =>
          if responder == Some(id) {
            lastError := Some(error);
          }
        case Finish(id) =>
          if responder == Some(id) {
            responder, task, source := None, None, None;
          }
          finished := finished + {id};
      }
    }

    method Await(es: seq<Event>)
      modifies this
      ensures Contents() == ReactAll(old(Contents()), es)
    {
      for i := 0 to |es|
        invariant Contents() == ReactAll(old(Contents()), es[..i])
      {
        assert es[..i + 1][..i] == es[..i];
        RunResponder(es[i]);
      }
      assert es[..|es|] == es;
    }

    method ShutdownResponder(clearError: bool, es: seq<Event>)
      modifies this
      ensures Contents() == Shutdown(old(Contents()), clearError, es)
    {
      responder, task, source := None, None, None;
      if clearError {
        lastError := None;
      }
      Await(es);
    }

    method OpenResponder(q: Request<O, R>, w: World) returns (open: bool)
      modifies this
      ensures (Contents(), open) == Opened(old(Contents()), q, w)
    {
      nextId := nextId + 1;
      Await(w.whileOpening);
      open := w.opens;
      if !open {
        if binding.None? || binding.value.port != q.port
           || !(binding.value.host == q.host || q.host == "0.0.0.0" || q.host == "") {
          return;
        }
        ShutdownResponder(false, w.whileFreeing);
        Await(w.whileReopening);
        open := w.reopens;
      }
    }

    method InstallResponder(q: Request<O, R>, id: nat, newObjects: seq<O>, newRules: seq<R>)
      modifies this
      ensures Contents() == Install(old(Contents()), q, id, newObjects, newRules)
    {
      responder, task := Some(id), Some(id);
      binding := Some(Binding(q.host, q.port, q.communities, q.bundleId));
      source := if newRules != [] then Some(id) else None;
      objects, rules := newObjects, newRules;
      lastError, requests := None, 0;
      latest := Some(id);
    }

    method StartResponder(q: Request<O, R>, w: World) returns (ok: bool)
      modifies this
      ensures (Contents(), ok) == Start(old(Contents()), q, w)
    {
      if !w.parses {
        return false;
      }
      var preparedObjects := if q.objects.Some? then q.objects.value else objects;
      var preparedRules := if q.rules.Some? then q.rules.value else rules;
      var id := nextId;
      ok := OpenResponder(q, w);
      if !ok {
        return;
      }
      ShutdownResponder(false, w.whileReplacing);
      InstallResponder(q, id, preparedObjects, preparedRules);
    }

    method StopResponder(es: seq<Event>)
      modifies this
      ensures Contents() == Shutdown(old(Contents()), true, es)
    {
      ShutdownResponder(true, es);
    }

    method SetResponderObjects(c: Change<O>) returns (ok: bool)
      modifies this
      ensures (Contents(), ok) == SetObjects(old(Contents()), c)
    {
      if !c.parses {
        return false;
      }
      if binding.Some? && binding.value.bundleId.Some? && c.activeBundle.Some? && c.activeBundle != binding.value.bundleId {
        return false;
      }
      objects := if c.replace then c.specs else objects + c.specs;
      if source.Some? || responder.Some? {
        return c.taken;
      }
      ok := true;
    }
  }

  /* ---- what every run keeps ---- */

  /** The responder and task fields are both empty or both belong to the latest installed
      responder, and so does the object source when there is one. */
  ghost predicate Valid<O, R>(s: State<O, R>) {
    && s.responder == s.task
    && (s.responder.Some? ==> s.responder == s.latest)
    && (s.source.Some? ==> s.source == s.responder)
    && (s.latest.Some? ==> s.latest.value < s.nextId)
    && (s.latest.Some? <==> s.binding.Some?)
  }

  /** Everything a background event cannot touch. */
  ghost predicate SameSetup<O, R>(s: State<O, R>, t: State<O, R>) {
    s.binding == t.binding && s.objects == t.objects && s.rules == t.rules && s.nextId == t.nextId && s.latest == t.latest
  }

  function CountServed(es: seq<Event>): nat {
    if es == [] then 0 else CountServed(es[..|es| - 1]) + if es[|es| - 1].Served? then 1 else 0
  }

  /** The events that look at which responder is installed. */
  predicate Guarded(e: Event) {
    e.Fault? || e.Finish?
  }

  lemma {:induction false} EventsKeepValid<O, R>(s: State<O, R>, es: seq<Event>)
    ensures Valid(s) ==> Valid(ReactAll(s, es))
    ensures SameSetup(s, ReactAll(s, es))
  {
    if es != [] {
      EventsKeepValid(s, es[..|es| - 1]);
    }
  }

  /** Background events count what they serve. */
  lemma {:induction false} EventsCountRequests<O, R>(s: State<O, R>, es: seq<Event>)
    ensures ReactAll(s, es).requests == s.requests + CountServed(es)
  {
    if es != [] {
      EventsCountRequests(s, es[..|es| - 1]);
    }
  }

  /** An installed responder, its task and its source are still there after background events
      exactly when that task did not finish among them. */
  lemma {:induction false} ResponderSurvivesExactlyWhen<O, R>(s: State<O, R>, es: seq<Event>)
    requires s.responder.Some?
    ensures var t := ReactAll(s, es);
      if Finish(s.responder.value) in es then t.responder == t.task == t.source == None
      else t.responder == s.responder && t.task == s.task && t.source == s.source
  {
    if es != [] {
      ResponderSurvivesExactlyWhen(s, es[..|es| - 1]);
      assert es == es[..|es| - 1] + [es[|es| - 1]];
    }
  }

  /** With no responder installed, background events mark tasks finished, count requests and report
      encoding errors; nothing else. */
  lemma {:induction false} EventsAreInertWhenCleared<O, R>(s: State<O, R>, es: seq<Event>)
    requires s.responder.None?
    ensures var t := ReactAll(s, es);
      && t.(finished := s.finished, requests := s.requests, lastError := s.lastError) == s
      && (forall id :: id in t.finished <==> id in s.finished || Finish(id) in es)
      && t.lastError == (if exists e | e in es :: e.Unencodable? then Some(ENCODE_ERROR) else s.lastError)
  {
    if es != [] {
      EventsAreInertWhenCleared(s, es[..|es| - 1]);
      assert es == es[..|es| - 1] + [es[|es| - 1]];
    }
  }

  lemma StartKeepsValid<O, R>(s: State<O, R>, q: Request<O, R>, w: World)
    requires Valid(s)
    ensures Valid(Start(s, q, w).0)
  {
    var created := s.(nextId := s.nextId + 1);
    EventsKeepValid(created, w.whileOpening);
    var first := ReactAll(created, w.whileOpening);
    EventsKeepValid(Cleared(first, false), w.whileFreeing);
    EventsKeepValid(Shutdown(first, false, w.whileFreeing), w.whileReopening);
    var t := Opened(s, q, w).0;
    EventsKeepValid(Cleared(t, false), w.whileReplacing);
  }

  /** Whatever the interleaving of control calls and background events. */
  lemma {:induction false} RunsKeepValid<O, R>(ops: seq<Op<O, R>>)
    ensures Valid(Run(Fresh(), ops))
  {
    if ops != [] {
      var s, op := Run(Fresh(), ops[..|ops| - 1]), ops[|ops| - 1];
      RunsKeepValid(ops[..|ops| - 1]);
      match op
      case StartOp(q, w) => StartKeepsValid(s, q, w);
      case StopOp(es) => EventsKeepValid(Cleared(s, true), es);
      case _ =>
    }
  }

  /** The exit of a replaced responder changes no field, in any reachable state. */
  lemma ReplacedResponderExitsSilently<O, R>(ops: seq<Op<O, R>>, e: Event)
    ensures var s := Run<O, R>(Fresh(), ops);
      Guarded(e) && s.latest != Some(e.id) ==> React(s, e).(finished := s.finished) == s
  {
    RunsKeepValid<O, R>(ops);
  }

  /* ---- the fields never name an ended task ---- */

  /** The events come from responders created before. */
  predicate Named(es: seq<Event>, bound: nat) {
    forall e | e in es :: e.id < bound
  }

  /** The new responder's task is created after the last wait of its start. */
  predicate TimelyStart(w: World, bound: nat) {
    Named(w.whileOpening, bound) && Named(w.whileFreeing, bound) && Named(w.whileReopening, bound)
    && Named(w.whileReplacing, bound)
  }

  predicate Timely<O, R>(op: Op<O, R>, bound: nat) {
    match op
    case StartOp(_, w) => TimelyStart(w, bound)
    case StopOp(es) => Named(es, bound)
    case SetObjectsOp(_) => true
    case BackgroundOp(e) => e.id < bound
  }

  predicate AliveBelow<O, R>(s: State<O, R>, bound: nat) {
    && (s.responder.Some? ==> s.responder.value !in s.finished)
    && forall id | id in s.finished :: id < bound
  }

  /** The installed responder's task has not ended, and only created ones have. */
  predicate Alive<O, R>(s: State<O, R>) {
    AliveBelow(s, s.nextId)
  }

  lemma {:induction false} EventsKeepAlive<O, R>(s: State<O, R>, es: seq<Event>, bound: nat)
    requires AliveBelow(s, bound) && Named(es, bound)
    ensures AliveBelow(ReactAll(s, es), bound)
  {
    if es != [] {
      EventsKeepAlive(s, es[..|es| - 1], bound);
      assert es[|es| - 1] in es;
    }
  }

  lemma OpenedKeepsAlive<O, R>(s: State<O, R>, q: Request<O, R>, w: World)
    requires Alive(s) && TimelyStart(w, s.nextId)
    ensures AliveBelow(Opened(s, q, w).0, s.nextId)
  {
    var created := s.(nextId := s.nextId + 1);
    EventsKeepAlive(created, w.whileOpening, s.nextId);
    var first := ReactAll(created, w.whileOpening);
    EventsKeepAlive(Cleared(first, false), w.whileFreeing, s.nextId);
    EventsKeepAlive(Shutdown(first, false, w.whileFreeing), w.whileReopening, s.nextId);
  }

  lemma StartKeepsAlive<O, R>(s: State<O, R>, q: Request<O, R>, w: World)
    requires Alive(s) && TimelyStart(w, s.nextId)
    ensures AliveBelow(Start(s, q, w).0, s.nextId) && Start(s, q, w).0.nextId >= s.nextId
  {
    var t := Opened(s, q, w).0;
    OpenedKeepsAlive(s, q, w);
    EventsKeepAlive(Cleared(t, false), w.whileReplacing, s.nextId);
    var created := s.(nextId := s.nextId + 1);
    EventsKeepValid(created, w.whileOpening);
    var first := ReactAll(created, w.whileOpening);
    EventsKeepValid(Cleared(first, false), w.whileFreeing);
    EventsKeepValid(Shutdown(first, false, w.whileFreeing), w.whileReopening);
    EventsKeepValid(Cleared(t, false), w.whileReplacing);
  }

  lemma StepKeepsAlive<O, R>(s: State<O, R>, op: Op<O, R>)
    requires Alive(s) && Timely(op, s.nextId)
    ensures Alive(Step(s, op))
  {
    match op
    case StartOp(q, w) => StartKeepsAlive(s, q, w);
    case StopOp(es) =>
      EventsKeepAlive(Cleared(s, true), es, s.nextId);
      EventsKeepValid(Cleared(s, true), es);
    case _ =>
  }

  /** Every operation of a run meets only events of responders created before it. */
  ghost predicate TimelyRun<O(!new), R(!new)>(ops: seq<Op<O, R>>) {
    forall i | 0 <= i < |ops| :: Timely(ops[i], Run(Fresh(), ops[..i]).nextId)
  }

  /** Over every run, whatever falls into the waits, an installed responder's task has not ended. */
  lemma {:induction false} InstalledTaskIsAlive<O(!new), R(!new)>(ops: seq<Op<O, R>>)
    requires TimelyRun(ops)
    ensures var s := Run<O, R>(Fresh(), ops);
      Alive(s) && (s.responder.Some? ==> s.task == s.responder && s.task.value !in s.finished)
  {
    RunsKeepValid<O, R>(ops);
    if ops != [] {
      var front := ops[..|ops| - 1];
      forall i | 0 <= i < |front| ensures Timely(front[i], Run(Fresh(), front[..i]).nextId) {
        assert front[..i] == ops[..i];
      }
      InstalledTaskIsAlive(front);
      StepKeepsAlive(Run(Fresh(), front), ops[|ops| - 1]);
    }
  }

  /* ---- starting ---- */

  /** A failed bind on a new address leaves the service as the background events alone would:
      binding, objects and rules are untouched, requests are only counted, and the responder, its
      task and its source are still there exactly when its task did not finish meanwhile. */
  lemma FailedBindOnNewAddress<O, R>(s: State<O, R>, q: Request<O, R>, w: World)
    requires w.parses && !w.opens && !SameAddress(s, q.host, q.port)
    ensures !Start(s, q, w).1
    ensures Start(s, q, w).0 == ReactAll(s.(nextId := s.nextId + 1), w.whileOpening)
    ensures var t := Start(s, q, w).0;
      && t.binding == s.binding && t.objects == s.objects && t.rules == s.rules
      && t.requests == s.requests + CountServed(w.whileOpening)
      && (s.responder.Some? ==>
            if Finish(s.responder.value) in w.whileOpening then t.responder == t.task == t.source == None
            else t.responder == s.responder && t.task == s.task && t.source == s.source)
    ensures w.whileOpening == [] ==> Start(s, q, w).0 == s.(nextId := s.nextId + 1)
  {
    var created := s.(nextId := s.nextId + 1);
    EventsKeepValid(created, w.whileOpening);
    EventsCountRequests(created, w.whileOpening);
    if s.responder.Some? {
      ResponderSurvivesExactlyWhen(created, w.whileOpening);
    }
  }

  /** A failed start keeps the running responder exactly when the request was refused before
      binding, or the address is not the bound one and the responder's task did not finish during
      the bind: a failed restart in place stops it. The configuration stays in every case. */
  lemma FailedStartKeepsResponderExactlyWhen<O, R>(s: State<O, R>, q: Request<O, R>, w: World)
    requires s.responder.Some? && !Start(s, q, w).1
    ensures Start(s, q, w).0.responder == s.responder <==>
      !w.parses || (!SameAddress(s, q.host, q.port) && Finish(s.responder.value) !in w.whileOpening)
    ensures var t := Start(s, q, w).0;
      t.binding == s.binding && t.objects == s.objects && t.rules == s.rules
  {
    if w.parses {
      var created := s.(nextId := s.nextId + 1);
      var first := ReactAll(created, w.whileOpening);
      EventsKeepValid(created, w.whileOpening);
      ResponderSurvivesExactlyWhen(created, w.whileOpening);
      if SameAddress(s, q.host, q.port) {
        EventsAreInertWhenCleared(Cleared(first, false), w.whileFreeing);
        EventsAreInertWhenCleared(Shutdown(first, false, w.whileFreeing), w.whileReopening);
      }
    }
  }

  /** When the first bind of a start fails: if nothing is bound, or another port, or another host and
      the request is not for every host, the responder, its task and its source are kept unless it
      finishes meanwhile; otherwise they are given up, and the start succeeds exactly when the second
      bind does. */
  lemma FirstBindFails<O, R>(s: State<O, R>, q: Request<O, R>, w: World)
    requires w.parses && !w.opens
    ensures var (t, ok) := Start(s, q, w);
      if s.binding.None? || s.binding.value.port != q.port
         || (s.binding.value.host != q.host && q.host != "0.0.0.0" && q.host != "")
      then
        && !ok
        && (s.responder.Some? && Finish(s.responder.value) !in w.whileOpening ==>
              t.responder == s.responder && t.task == s.task && t.source == s.source)
        && (s.responder.Some? && Finish(s.responder.value) in w.whileOpening ==>
              t.responder == t.task == t.source == None)
      else
        && (ok <==> w.reopens)
        && (ok ==> t.responder == t.task == Some(s.nextId))
        && (!ok ==> t.responder == t.task == t.source == None)
  {
    var created := s.(nextId := s.nextId + 1);
    var first := ReactAll(created, w.whileOpening);
    EventsKeepValid(created, w.whileOpening);
    if s.responder.Some? {
      ResponderSurvivesExactlyWhen(created, w.whileOpening);
    }
    EventsAreInertWhenCleared(Cleared(first, false), w.whileFreeing);
    EventsAreInertWhenCleared(Shutdown(first, false, w.whileFreeing), w.whileReopening);
  }

  /** A start succeeds exactly when the request parses and the socket opens, at once or, for the
      address already bound, after freeing it. It then installs the new responder with fresh
      counters and a live task, keeping the configured objects and rules that the request leaves
      out. */
  lemma StartInstallsLatest<O, R>(s: State<O, R>, q: Request<O, R>, w: World)
    ensures Start(s, q, w).1 <==> w.parses && (w.opens || (SameAddress(s, q.host, q.port) && w.reopens))
    ensures Start(s, q, w).1 ==>
      var t := Start(s, q, w).0;
      && t.responder == t.task == t.latest == Some(s.nextId) && s.nextId < t.nextId
      && t.binding == Some(Binding(q.host, q.port, q.communities, q.bundleId))
      && t.objects == (if q.objects.Some? then q.objects.value else s.objects)
      && t.rules == (if q.rules.Some? then q.rules.value else s.rules)
      && t.source == (if t.rules == [] then None else Some(s.nextId))
      && t.lastError == None && t.requests == 0
      && (Alive(s) && TimelyStart(w, s.nextId) ==> s.nextId !in t.finished)
  {
    EventsKeepValid(s.(nextId := s.nextId + 1), w.whileOpening);
    var first := ReactAll(s.(nextId := s.nextId + 1), w.whileOpening);
    EventsKeepValid(Cleared(first, false), w.whileFreeing);
    EventsKeepValid(Shutdown(first, false, w.whileFreeing), w.whileReopening);
    var t := Opened(s, q, w).0;
    EventsKeepValid(Cleared(t, false), w.whileReplacing);
    if Alive(s) && TimelyStart(w, s.nextId) {
      StartKeepsAlive(s, q, w);
    }
  }

  /** Stopping empties the responder, task and source fields whatever happens meanwhile, and keeps
      the configuration. The error is empty too, exactly when no request that cannot be encoded is
      met while the old responder closes. */
  lemma StopEmptiesFields<O, R>(s: State<O, R>, es: seq<Event>)
    ensures var t := Shutdown(s, true, es);
      && t.(finished := s.finished, requests := s.requests, lastError := s.lastError)
           == s.(responder := None, task := None, source := None)
      && t.requests == s.requests + CountServed(es)
      && (t.lastError == None <==> forall e | e in es :: !e.Unencodable?)
  {
    EventsAreInertWhenCleared(Cleared(s, true), es);
    EventsCountRequests(Cleared(s, true), es);
  }

  /* ---- changing the objects ---- */

  /** What a change of objects makes of the configured ones: nothing when it does not parse or the
      responder was bound under another bundle than the active one; otherwise they are replaced or
      appended to, and the call fails only if something is running that does not take them. */
  lemma ObjectsAfterChange<O, R>(s: State<O, R>, c: Change<O>)
    ensures var (t, ok) := SetObjects(s, c);
      var stale := s.binding.Some? && s.binding.value.bundleId.Some? && c.activeBundle.Some?
        && s.binding.value.bundleId.value != c.activeBundle.value;
      && t.objects == (if !c.parses || stale then s.objects else if c.replace then c.specs else s.objects + c.specs)
      && (ok <==> c.parses && !stale && (c.taken || (s.responder == None && s.source == None)))
  {}

  /** A task's error is kept exactly when its responder is installed. */
  lemma FaultIsRecordedExactlyWhenInstalled<O, R>(s: State<O, R>, id: nat, error: string)
    ensures React(s, Fault(id, error)) == if s.responder == Some(id) then s.(lastError := Some(error)) else s
  {}

  /** A refused change of objects is nevertheless stored exactly when it was refused by the running
      responder, after parsing and the bundle check, and differs from what was configured. */
  lemma RefusedObjectsAreStoredExactlyWhen<O(!new), R(!new)>(s: State<O, R>, c: Change<O>)
    requires !SetObjects(s, c).1
    ensures SetObjects(s, c).0 != s <==>
      c.parses && !StaleBinding(s, c.activeBundle) && (if c.replace then c.specs != s.objects else c.specs != [])
    ensures SetObjects(s, c).0.(objects := s.objects) == s
  {
    if !c.replace && c.specs != [] {
      assert |s.objects + c.specs| != |s.objects|;
    }
  }
}
