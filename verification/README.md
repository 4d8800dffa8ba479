# Verified model of an SNMP lab's service logic

This project models, in Dafny, the algorithms and state machines at the heart of an SNMP
laboratory (a FastAPI back end with a JavaScript front end) and proves what they are for.

| file | what it models |
|---|---|
| `UploadPlanner.dfy` | which uploaded MIBs can be compiled now, and why the others cannot |
| `SourcePrecedence.dfy` | which stored copy of a duplicated MIB is predicted active, against the search that picks it |
| `BundleLifecycle.dfy` | compile, activate and rollback over rows, pointers and the bundle in memory |
| `BundleDiff.dfy` | the difference of two bundles and its totals |
| `NotificationReplay.dfy` | recording a notification as JSON and sending it again |
| `Responder.dfy` | start, stop and restart in place, interleaved with background task exits |
| `LogCoalescing.dfy` | the sliding-window merge of log entries, live and on reload |
| `MibMetadata.dfy`, `SimulatorDefaults.dfy` | constraints, their validator, and the default objects that must satisfy it |
| `Utf8Text.dfy`, `WalkGrouping.dfy` | UTF-8 with replacement, index decoding and row grouping of walks |
| `SourceDelete.dfy` | delete with restore |
| `OidTree.dfy`, `OidSearch.dfy` | the OID trees and the longest-prefix search |
| `EventHistory.dfy` | the event table, its search mirror and paging |
| `Percentile.dfy` | percentile interpolation over reals |
| `Text.dfy`, `Lists.dfy`, `Sorting.dfy`, `SlidingMerge.dfy`, `Grouping.dfy` | the string, list, sorting, folding and grouping theory they share |

`dafny verify dfyconfig.toml` checks all of it.

## How it is modelled

- Objects whose methods update their fields are classes. Each method is proved equal to a function
  on states (`Activate`, `Start`, `Record`, ...), and the laws are lemmas about that function, over
  single steps and over all runs.
- The outside world is a parameter: whether a bind, unlink, compile or load succeeds, which id the
  database picks, which background events fall into each wait, how the bundle resolves a name, what
  LIKE and full-text matching say. The laws hold for every choice.
- An await point of the responder is a sequence of background events. Control calls do not race one
  another.
- Table rows are sequences in an arbitrary storage order; the listing is proved not to depend on it.

## Where the code does not do what one would expect

Each of these is a lemma with a concrete input, or the failing side of an if-and-only-if.

- A declared MIB name with surrounding blanks is never ready, even with no imports
  (`PaddedNameIsBlocked`).
- A blocked duplicate of a ready MIB is reported ready (`DuplicateIsReadyDespiteBlockers`).
- A copy in the upload root is listed under "default" and predicted to lose against a common copy,
  while the search takes the root first (`RootCopyExample`). A group that mixes .txt with .mib or
  .my is searched in another order than it is predicted.
- Re-activating the active bundle makes it its own rollback target (`RollbackUndoesActivation`).
- A compile whose activation fails becomes the effective bundle when nothing was active
  (`FailedActivationMovesEffectiveBundle`).
- A restart in place that cannot bind again stops the running responder
  (`FailedStartKeepsResponderExactlyWhen`).
- A delete that fails after the activation restores the files but keeps the bundle it activated
  (`FailedDeleteKeepsActiveExactlyWhen`).
- Defaults for BITS with a SIZE, for a first enum value outside the constraint, and for negative
  ranges on unsigned types are refused by the runtime (`DefaultIsAcceptedExactlyWhen`), and so is a
  non-ASCII name clamped by characters (`NonAsciiNameOverflows`; whether a MIB compiler lets such a
  name through is not known here). Unions whose alternatives are all closed unions, the empty union
  among them, reject values without showing bounds (`HidesExactlyWhen`). A default is checked against
  the node that the OID lookup answers, which may declare other bounds (`OtherOwnerRefuses`).
- Out-of-order log entries coalesce further on a second pass (`OutOfOrderIsNotSettled`).
- The marker meant for DateAndTime is misspelt, so such indexes are not decoded
  (`DateAndTimeIsUnknown`); nor are Unsigned32 and IpAddress ones (`UnknownIndexFallsBack`).
- Index bytes that are not UTF-8 are replaced, and two instances become one row
  (`ReplacedBytesCollide`); without a replacement character they never do (`IndexKeyIsInjective`).
- A change of objects that the running responder refuses stays configured
  (`RefusedObjectsAreStoredExactlyWhen`). A request that cannot be encoded while the old responder
  closes leaves its error behind after a stop (`StopEmptiesFields`).
- Empty OIDs, padded or blank addresses and the three exception values cannot be replayed
  (`ValueReplaysExactlyWhen`).

## Model

| member | source | states |
|---|---|---|
| `UploadPlanner.ReadyNames` | backend/app/services/mib_sources.py:111-134 | the repeated passes terminate, and what they collect is exactly the least set closed under "a valid entry whose imports are all stable or ready makes its name ready" |
| `UploadPlanner.ReadySetIsLeastClosed` | backend/app/services/mib_sources.py:111-134 | the independent definition of readiness (the names in every closed set) is itself closed, and below every closed set |
| `UploadPlanner.AnalyzeUploadBatch` | backend/app/services/mib_sources.py:71-227 | the report of a batch, in its own terms: a file misses exactly its imports that are not available, that no file declares and that are none of the five base modules; it is blocked by exactly its imports that are neither settled nor in every closed set; the missing imports of the batch are exactly those of its files |
| `UploadPlanner.MissingExactlyWhen` | backend/app/services/mib_sources.py:108-144 | an import is missing if and only if some file imports it, it is not available, no file declares it and it is none of the five base modules |
| `UploadPlanner.MissingIsNotStable` | backend/app/services/mib_sources.py:111-144 | a missing import is never one that counts as stable |
| `UploadPlanner.ReadyByFields` | backend/app/services/mib_sources.py:111-134 | a name is ready if and only if it is in every set of names that contains the name of each valid file whose imports are base modules, or available and not declared in the batch, or in the set |
| `UploadPlanner.UploadIsBlockedExactlyWhen` | backend/app/services/mib_sources.py:229-256 | an upload is refused for an invalid file, else for being empty, else, without auto-fetch, for an import nobody supplies, and otherwise accepted |
| `UploadPlanner.ReadyInOrder` | backend/app/services/mib_sources.py:177-188 | the ready list keeps the order of the batch |
| `UploadPlanner.ReadyAndBlockedPartition` | backend/app/services/mib_sources.py:177-188 | every valid file with a non-blank name is listed exactly once, as ready or as blocked |
| `UploadPlanner.ReadyHasCompileOrder` | backend/app/services/mib_sources.py:117-134 | the ready names can be ordered without repetition so that each has a supplier whose imports are stable or earlier |
| `UploadPlanner.ReadyIgnoresBatchOrder` | backend/app/services/mib_sources.py:117-134 | permuting the batch does not change the ready set |
| `UploadPlanner.MoreAvailableKeepsReady` | backend/app/services/mib_sources.py:111-134 | more available modules never shrink the ready set |
| `UploadPlanner.AcyclicBatchIsFullyReady` | backend/app/services/mib_sources.py:111-188 | if every file is valid with a trimmed name, nothing is missing and batch imports are acyclic (some rank falls along them), no MIB is blocked |
| `UploadPlanner.UnsuppliedMeansMissingOrInvalidOnly` | backend/app/services/mib_sources.py:106-115 | a name that is neither stable nor supplied is missing, or in the batch only through unusable files |
| `UploadPlanner.BlockedExactlyWhenExplained` | backend/app/services/mib_sources.py:118-134 | with one supplier per name, a supplied name is blocked if and only if an import chain leads from it to an unsupplied name or into a cycle |
| `UploadPlanner.BlockedNameHasChain` | backend/app/services/mib_sources.py:118-134 | with any suppliers, every blocked name has such a chain |
| `UploadPlanner.AcceptedUploadIsBlockedOnlyByCycles` | backend/app/services/mib_sources.py:229-256 | an upload the policy accepts without auto-fetch leaves a MIB blocked only when its imports lead into a cycle |
| `UploadPlanner.UnblockedReadyExactlyWhenTrimmed` | backend/app/services/mib_sources.py:119-188 | a valid file with no blockers is reported ready if and only if its declared name has no surrounding blanks, because the loop records stripped names and the report looks up unstripped ones |
| `UploadPlanner.PaddedNameIsBlocked` | backend/app/services/mib_sources.py:119-188 | a concrete padded name with no imports that is reported blocked |
| `UploadPlanner.ReportedReadyExactlyWhen` | backend/app/services/mib_sources.py:148-181 | any file is reported ready if and only if it is usable, its declared name is trimmed, and some usable file of that name has no blockers |
| `UploadPlanner.ReadyDespiteBlockers` | backend/app/services/mib_sources.py:142-152 | a usable file with blockers and a trimmed name is reported ready if and only if another usable file of its name has no blockers; never with one supplier per name |
| `UploadPlanner.DuplicateIsReadyDespiteBlockers` | backend/app/services/mib_sources.py:142-152 | a concrete batch with two copies of a name in which a blocked copy is reported ready |
| `UploadPlanner.PartialTargetsAreTheReadyRequested` | backend/app/services/mib_sources.py:273-304 | a partial compile targets exactly the requested (or all) ready names, each once, and is refused exactly when there are none |
| `UploadPlanner.PartialTargetsInOrder` | backend/app/services/mib_sources.py:273-304 | the targets come in the order in which they were first requested |
| `SourcePrecedence.NormalizedGroupsAreNormal` | backend/app/services/mib_sources.py:475-491 | every accepted group name is in normal form and normalizing it again changes nothing |
| `SourcePrecedence.KeysSeparateGroups` | backend/app/services/mib_sources.py:493-505 | different normal groups, and the root, never share a precedence key |
| `SourcePrecedence.SegmentsAreRefusedExactlyWhen` | backend/app/services/mib_sources.py:475-491 | a group name is refused if and only if a segment, stripped and in lower case, is a dot, two dots, or holds a character other than small letters, digits, dot, dash and underscore |
| `SourcePrecedence.SearchOrder` | backend/app/services/mib_sources.py:402-408 | directories are searched root first, then common and below, then others, then auto-fetched and below, by text within a rank |
| `SourcePrecedence.PredictionOrder` | backend/app/services/mib_sources.py:625-628 | stored copies are ordered by the same ranks of their listed groups, the root listed as default, then by group text, then by path |
| `SourcePrecedence.ProbeOrder` | backend/app/services/bundles.py:951-959 | a directory yields a .txt file before a .mib file before a .my file |
| `SourcePrecedence.ResolutionByCopies` | backend/app/services/mib_sources.py:673-748 | an upload is unique if and only if it has no declared name or no other copy exists; otherwise it is active or shadowed according to the predicted copy |
| `SourcePrecedence.PredictedIsLeast` | backend/app/services/mib_sources.py:630-748 | the predicted active copy is one of the stored copies and precedes all of them in the precedence order; under a blank declared name it is the uploaded file itself |
| `SourcePrecedence.PredictionIsSelectedExactlyWhen` | backend/app/services/bundles.py:951-969 | after any upload of a MIB whose files are named after it, in the root or in named groups, the predicted copy is the file the path search selects if and only if (a) a copy in the upload root, if there is one, precedes every copy in a group and (b) the group of a leading copy does not hold the MIB under .txt and under another extension |
| `SourcePrecedence.LeaderInRootExactlyWhen` | backend/app/services/mib_sources.py:625-671 | a copy that precedes all others lies in the root if and only if some root copy precedes every copy in a group, although the root is listed as a group named default |
| `SourcePrecedence.OneFilePerGroupIsPredicted` | backend/app/services/mib_sources.py:673-748 | with one file per MIB in every named group the prediction is right |
| `SourcePrecedence.RootCopyBeatsCommonCopy` | backend/app/services/mib_sources.py:402-408 | whenever a copy lies in the upload root and another in the common group, the prediction is wrong |
| `SourcePrecedence.RootCopyExample` | backend/app/services/mib_sources.py:402-408 | a concrete inventory and upload of that family |
| `SourcePrecedence.SearchStopsAt` | backend/app/services/bundles.py:951-959 | the search settles on a directory that no other holder precedes |
| `BundleLifecycle.BundleService.ActivateBundle` | backend/app/services/bundles.py:422-471 | activation moves flags, both pointers and the loaded bundle together, or fails and changes nothing |
| `BundleLifecycle.BundleService.RollbackBundle` | backend/app/services/bundles.py:596-603 | rollback is activation of the previous bundle, and fails without one |
| `BundleLifecycle.BundleService.CompileBundle` | backend/app/services/bundles.py:364-420 | a successful compile adds one inactive row under a new id and then activates it if asked; a failed compile adds none |
| `BundleLifecycle.ActivateByField` | backend/app/services/bundles.py:422-471 | activation works if and only if the row exists, its manifest exists and its data loads; then that row alone is flagged, and the old active row becomes the rollback target |
| `BundleLifecycle.CompileByField` | backend/app/services/bundles.py:364-420 | a compile that works adds exactly one inactive row under the next id |
| `BundleLifecycle.StepKeepsValid` | backend/app/services/bundles.py:422-471 | no operation breaks the agreement of flags, pointers and memory, drops a row, or leaves nothing active once something was |
| `BundleLifecycle.ReachableStatesServeTheActiveRow` | backend/app/services/bundles.py:422-471 | over every run of compile, activate and rollback at most one row is active, memory equals the active pointer, and the active row is the one the runtime lookup picks |
| `BundleLifecycle.FailureIsAtomic` | backend/app/services/bundles.py:422-471 | a failed operation never changes the active pointer, the rollback target or the loaded bundle, and unless it compiled first it changes nothing |
| `BundleLifecycle.TwoRollbacksRestore` | backend/app/services/bundles.py:596-603 | two successful rollbacks in a row restore the whole state |
| `BundleLifecycle.RollbackUndoesActivation` | backend/app/services/bundles.py:422-471 | rolling back an activation restores rows, active pointer and memory; the whole state comes back if and only if the bundle activated was the earlier rollback target |
| `BundleLifecycle.LookupsAgree` | backend/app/services/runtime.py:1236-1243 | on any table "is_active desc, id desc" picks the same row as "newest active, else newest" |
| `BundleLifecycle.FailedActivationMovesEffectiveBundle` | backend/app/services/bundles.py:859-871 | after a compile whose activation fails the effective bundle is the new row if and only if nothing was active |
| `BundleDiff.CompareBundles` | backend/app/services/bundles.py:494-594 | equal stored hashes short-cut and a missing payload is an error; otherwise the modules added, removed and changed, and for objects and notifications the sums of stored counts, of whole added or removed modules and of the names added, removed and changed within reported ones |
| `BundleDiff.ReportedModules` | backend/app/services/bundles.py:530-548 | a module is reported if and only if both sides have it and objects, notifications or import symbol sets differ, and the report lists exactly the names added, removed and changed |
| `BundleDiff.ObjectTotals` | backend/app/services/bundles.py:520-594 | the object totals, as sums of the stored object counts and of the object names of each reported module |
| `BundleDiff.NotificationTotals` | backend/app/services/bundles.py:520-594 | the same for notifications |
| `BundleDiff.CompareCommon` | backend/app/services/bundles.py:530-548 | the loop reports exactly the common modules that differ, and adds exactly their sizes to the totals |
| `BundleDiff.OmittedExactlyWhenSame` | backend/app/services/bundles.py:730-775 | a module is omitted if and only if objects, notifications and the import symbol sets all match |
| `BundleDiff.DiffRebuildsRight` | backend/app/services/bundles.py:777-793 | (left without removed) plus added is the right name set, and taking added and changed values from the right rebuilds the right map |
| `BundleDiff.SwapMirrorsModule` | backend/app/services/bundles.py:730-821 | swapping the sides of one module mirrors its diff |
| `BundleDiff.SwapMirrorsChanges` | backend/app/services/bundles.py:530-548 | swapping the sides of a comparison mirrors every reported module |
| `BundleDiff.SwapMirrorsTotals` | backend/app/services/bundles.py:520-594 | swapping the sides of a comparison swaps left with right and added with removed in its totals, whatever the stored counts say |
| `BundleDiff.TotalsBalance` | backend/app/services/bundles.py:520-594 | with stored counts that match the payloads, right total = left total + added - removed, for objects and notifications |
| `BundleDiff.ModuleTotalsBalance` | backend/app/services/bundles.py:518-560 | module totals balance whatever the stored counts say |
| `BundleDiff.OmittedModulesAddNothing` | backend/app/services/bundles.py:530-548 | leaving unchanged modules out of the report loses nothing from the totals |
| `NotificationReplay.DecodeOfToHex` | backend/app/services/runtime.py:1576-1583 | arbitrary bytes, the empty string included, survive their hex text |
| `NotificationReplay.OidRoundTrip` | backend/app/services/runtime.py:2152-2165 | printing an OID and parsing it gives it back if and only if it is not empty |
| `NotificationReplay.OidTextParts` | backend/app/services/runtime.py:2162-2165 | the dotted text of an OID has nothing to strip and splits into the decimals of its arcs |
| `NotificationReplay.ValueReplaysExactlyWhen` | backend/app/services/runtime.py:1731-1754 | recording a value and replaying it yields the same value if and only if it is one of the ten parseable types, with a non-empty OID or an unpadded non-blank address |
| `NotificationReplay.TypedNumber` | backend/app/services/runtime.py:1527-1543 | an integer parses under every numeric type, negatives only as a plain integer |
| `NotificationReplay.TextAliases` | backend/app/services/runtime.py:88-104 | the other names of octet strings and addresses |
| `NotificationReplay.NumberAliases` | backend/app/services/runtime.py:88-104 | the other names of integers, counters and gauges |
| `NotificationReplay.HexDigitValues` | backend/app/services/runtime.py:1576-1583 | which characters are hexadecimal digits and what they are worth |
| `NotificationReplay.PrefixedHex` | backend/app/services/runtime.py:1576-1583 | a leading 0x is dropped from hexadecimal text |
| `NotificationReplay.OidOfIntegers` | backend/app/services/runtime.py:2144-2148 | a list of integers is an OID as it stands, true and false counting as 1 and 0 |
| `NotificationReplay.OpaqueNeedsHex` | backend/app/services/runtime.py:2009-2042 | a recorded opaque value without hex text is refused |
| `NotificationReplay.TextWithoutHex` | backend/app/services/runtime.py:2009-2042 | a recorded string without hex text is resent as the UTF-8 bytes of its text |
| `NotificationReplay.AutoTargetOfText` | backend/app/services/runtime.py:2044-2050 | a recorded target is automatic if and only if its OID is sysUpTime.0 or snmpTrapOID.0 |
| `NotificationReplay.ReplayVarbindInputs` | backend/app/services/runtime.py:1981-2007 | the loop keeps order, skips automatic varbinds of events not sent, and stops at the first malformed item |
| `NotificationReplay.ReplayResendsRecordedVarbinds` | backend/app/services/runtime.py:1981-2050 | replaying a recorded event resends exactly the kept varbinds, same OIDs and values in order, if and only if each of them is replayable and meets its declared constraints |
| `NotificationReplay.KeptVarbinds` | backend/app/services/runtime.py:1988-1998 | a sent event keeps all varbinds; any other keeps each varbind as often as it occurs, except those of 1.3.6.1.2.1.1.3.0 and 1.3.6.1.6.3.1.1.4.1.0 |
| `NotificationReplay.MalformedEvents` | backend/app/services/runtime.py:1981-1987 | an event without varbinds replays as none, and one whose varbinds are no list is refused |
| `NotificationReplay.BadItemRefusesEvent` | backend/app/services/runtime.py:1988-2007 | one malformed item, wherever it stands, refuses the whole event |
| `NotificationReplay.SymbolicTarget` | backend/app/services/runtime.py:1991-1996 | an item without an OID is sent to its symbolic name |
| `Responder.RuntimeService.StartResponder` | backend/app/services/runtime.py:351-440 | the fields after a start, with background task exits falling into each wait |
| `Responder.RuntimeService.OpenResponder` | backend/app/services/runtime.py:378-408 | bind, and on a conflict at the bound address free it and bind once more |
| `Responder.RuntimeService.ShutdownResponder` | backend/app/services/runtime.py:1187-1206 | the fields are cleared before waiting for the old task |
| `Responder.RuntimeService.RunResponder` | backend/app/services/runtime.py:1116-1130 | a served request is counted and an encoding error recorded whichever responder is installed; the exit of a task touches the fields only when its responder is still installed |
| `Responder.RuntimeService.SetResponderObjects` | backend/app/services/runtime.py:515-559 | a change that does not parse, or meets an older bundle binding, is refused and changes nothing; otherwise objects are replaced or appended, and the call fails after that if the running responder does not take them |
| `Responder.RefusedObjectsAreStoredExactlyWhen` | backend/app/services/runtime.py:515-559 | a failed change of objects is stored nevertheless if and only if it parsed, met no older binding, and differs from what was configured; nothing else changes |
| `Responder.RunsKeepValid` | backend/app/services/runtime.py:351-440 | over every run, with any background events in between, responder and task are both empty or both belong to the latest installed responder |
| `Responder.ReplacedResponderExitsSilently` | backend/app/services/runtime.py:1116-1130 | in every reachable state the error and the exit of a replaced responder change no field |
| `Responder.FailedBindOnNewAddress` | backend/app/services/runtime.py:389-408 | a failed bind on a new address, with any background events meanwhile, leaves binding, objects and rules untouched and the request count exact; responder, task and source survive if and only if the responder did not finish meanwhile |
| `Responder.FirstBindFails` | backend/app/services/runtime.py:378-408 | a start that parses and whose first bind fails: with nothing bound, another port, or another host than the bound one and not the wildcard, the running responder survives unless it finishes meanwhile; otherwise it is freed and the start succeeds if and only if the second bind does |
| `Responder.ObjectsAfterChange` | backend/app/services/runtime.py:515-559 | the objects after a change, and when the call fails, from the fields |
| `Responder.FaultIsRecordedExactlyWhenInstalled` | backend/app/services/runtime.py:1116-1130 | the error of a task is recorded if and only if its responder is the installed one |
| `Responder.FailedStartKeepsResponderExactlyWhen` | backend/app/services/runtime.py:389-408 | a failed start, with any background events in every wait, keeps the running responder if and only if it was refused before binding, or the address is not the bound one and the responder did not finish during the bind |
| `Responder.StartInstallsLatest` | backend/app/services/runtime.py:351-440 | a start succeeds exactly when the request parses and the socket opens at once or after freeing the same address, and then installs the new responder with a live task and fresh counters |
| `Responder.InstalledTaskIsAlive` | backend/app/services/runtime.py:351-440 | over every run, with any events of already created responders in every wait, the fields never name a responder whose task has ended |
| `Responder.EventsAreInertWhenCleared` | backend/app/services/runtime.py:1116-1130 | with no responder installed background events only mark tasks finished, count requests and report encoding errors |
| `Responder.StopEmptiesFields` | backend/app/services/runtime.py:496-513 | stop empties responder, task and source whatever happens meanwhile and keeps the configuration; the error is empty too if and only if no unencodable request is met while the old responder closes |
| `LogCoalescing.MergeAssociates` | frontend/js/app.js:101-127 | merging three neighbours is associative in every modelled field |
| `LogCoalescing.MergeFieldsAssociate` | frontend/js/app.js:101-127 | counts, first and last OIDs and timestamps associate for any three entries |
| `LogCoalescing.MergeAssociatesExactlyWhen` | frontend/js/app.js:101-127 | the whole merge of any three entries, type and message included, associates if and only if one of the last two has a type or the type of the first is absent or GETNEXT |
| `LogCoalescing.MergeLaws` | frontend/js/app.js:79-127 | a merged entry meets others as its second part does, and adds up requests and OIDs |
| `LogCoalescing.BatchesExactlyWhen` | frontend/js/app.js:79-99 | two entries batch if and only if both are info entries of one of the two walk types and the second happened at most 1200 ms after the first and not before it |
| `LogCoalescing.MergedRun` | frontend/js/app.js:101-127 | a merged run is one info entry of the type of the run: requests and OIDs add up, it starts at the first OID asked for, ends at the last one seen, and happened when the last entry did |
| `LogCoalescing.MessageText` | frontend/js/app.js:63-77 | the message, with singular and plural and the ends of the range |
| `LogCoalescing.CoalesceLogEntries` | frontend/js/modules/simulator.js:420-441 | the reduce with its overwritten last element computes the fold |
| `LogCoalescing.CoalesceConservesTotals` | frontend/js/modules/simulator.js:420-441 | coalescing conserves the total number of requests and of OIDs |
| `LogCoalescing.CoalesceMergesMaximalRuns` | frontend/js/modules/simulator.js:420-441 | for entries in any order, coalescing merges exactly the maximal batchable runs |
| `LogCoalescing.CoalesceIsIdempotentExactlyWhen` | frontend/js/modules/simulator.js:420-441 | coalescing twice is coalescing once if and only if no two neighbouring runs end close enough, in order, to be merged |
| `LogCoalescing.TimeOrderedIsSettled` | frontend/js/modules/simulator.js:420-441 | time-ordered entries meet that condition |
| `LogCoalescing.OutOfOrderIsNotSettled` | frontend/js/app.js:79-99 | a concrete out-of-order list does not |
| `LogCoalescing.CoalesceSplitsExactlyWhen` | frontend/js/modules/simulator.js:420-455 | coalesce(coalesce(xs)+ys) = coalesce(xs+ys) for every ys if and only if xs meets the same condition |
| `LogCoalescing.AppState.AppendSimulatorLogEntry` | frontend/js/app.js:138-156 | one live append merges or pushes and drops the oldest entry above 500 |
| `LogCoalescing.AppState.AppendStream` | frontend/js/app.js:138-156 | a session of live appends on top of any stored or refreshed log keeps the newest 500 entries of that log continued by the stream, above the cap too |
| `LogCoalescing.LiveAppendCases` | frontend/js/app.js:138-156 | a live append to at most 500 entries replaces the last by the merge, or adds the entry and drops the oldest of 500 |
| `LogCoalescing.MergeListsCases` | frontend/js/modules/simulator.js:444-455 | an empty refresh keeps the newest 500 entries, any refresh yields at most 500, and the local entries kept are exactly those without any time |
| `LogCoalescing.CapAndAppendCommute` | frontend/js/app.js:138-156 | cutting to 500 before or after an append makes no difference |
| `LogCoalescing.RefreshAgreesWithLiveLog` | frontend/js/modules/simulator.js:444-455 | a refresh of settled items shows what live appends show, followed by every local entry in order, cut to 500 |
| `MibMetadata.CollectPairs` | backend/app/services/mib_metadata.py:146-160 | the bounds loop keeps the proper pairs in order |
| `MibMetadata.CollectUnionPairs` | backend/app/services/mib_metadata.py:131-143 | the bounds of a union are those of its alternatives of the wanted kind, in order |
| `MibMetadata.WithinBoundsIsAccepted` | backend/app/services/mib_metadata.py:102-129 | a value within one of the extracted bounds of its kind is never rejected |
| `MibMetadata.RejectsExactlyWhen` | backend/app/services/mib_metadata.py:102-129 | a range rejects exactly the numbers outside all its pairs if it has any, a size the lengths, neither the other kind, and a union exactly what every alternative other than junk rejects |
| `MibMetadata.AcceptsEverythingExactlyWhen` | backend/app/services/mib_metadata.py:102-129 | for every constraint and kind, no value of the kind is rejected if and only if the constraint is open: no pairs of the kind, or a union, at any depth, with an alternative that is open |
| `MibMetadata.HidesExactlyWhen` | backend/app/services/mib_metadata.py:131-143 | a constraint shows no bounds of a kind and can still reject a value of it if and only if it is a union whose every alternative, if any, is a union that is not open |
| `MibMetadata.ClosedRejectsLarge` | backend/app/services/mib_metadata.py:102-129 | a constraint that is not open rejects every value above all its declared bounds |
| `MibMetadata.EmptyUnionRejectsEverything` | backend/app/services/mib_metadata.py:102-129 | an empty union declares no bounds and yet rejects every value |
| `MibMetadata.NestedUnionHidesBounds` | backend/app/services/mib_metadata.py:131-143 | bounds two levels down are enforced but not extracted |
| `SimulatorDefaults.ChaseSyntax` | backend/app/services/simulator_service.py:258-274 | the textual-convention chase terminates on every bundle, cyclic aliases included, at the end or first repetition of the alias walk |
| `SimulatorDefaults.ResolutionIsUnique` | backend/app/services/simulator_service.py:258-274 | every chain of aliases resolves to exactly one wire syntax |
| `SimulatorDefaults.DefaultValueForSyntax` | backend/app/services/simulator_service.py:235-333 | the syntax is resolved first; an empty string for BITS, the first enum value as an integer, and otherwise the SNMP type that the resolved syntax names, counter64 exactly for Counter64, with a value in the first declared range or the draw of the type, or the clamped text; it fails exactly when the draw range is looked at and empty |
| `SimulatorDefaults.DefaultIsServedAs` | backend/app/services/simulator_service.py:277-333 | the type and value of the payload of every possible default, from the literal syntax names |
| `SimulatorDefaults.EveryDrawIsPossible` | backend/app/services/simulator_service.py:286-309 | conversely every number of the declared range, or of the draw of the type, may be generated |
| `SimulatorDefaults.WireSyntaxes` | backend/app/services/simulator_service.py:262-265 | the syntaxes at which the chase of aliases stops |
| `SimulatorDefaults.FirstLabelCounts` | backend/app/services/mib_metadata.py:51-64 | the first label of an enumeration gives the default |
| `SimulatorDefaults.OwnConstraintsFirst` | backend/app/services/mib_metadata.py:15-32 | the constraints of the node come before those of its type |
| `SimulatorDefaults.LooksLikeMacExactlyWhen` | backend/app/services/simulator_service.py:318-322 | a text is served as an address if and only if its name contains phys or mac in any case or its declared syntax is one of the two address types |
| `SimulatorDefaults.ClampStringContents` | backend/app/services/simulator_service.py:336-348 | clamping keeps the characters up to the upper bound and pads with x to the lower one |
| `SimulatorDefaults.DefaultForClass` | backend/app/services/simulator_service.py:277-333 | for every class of wire syntax: BITS before enums before a draw within the first declared range before the per-type default |
| `SimulatorDefaults.ClampMacToSize` | backend/app/services/simulator_service.py:351-374 | the padding loop gives the value cut or zero-padded to the first size bound |
| `SimulatorDefaults.ClampedStringFits` | backend/app/services/simulator_service.py:336-348 | a clamped string satisfies every constraint that shows its sizes and whose first size bound can be met |
| `SimulatorDefaults.HiddenSizesRefuseSomeName` | backend/app/services/simulator_service.py:336-348 | a constraint that hides sizes refuses the generated text of every instance of a node under some ASCII name, so showing them is necessary |
| `SimulatorDefaults.NonAsciiNameOverflows` | backend/app/services/simulator_service.py:336-348 | a concrete non-ASCII name whose clamped default still violates its size bound, characters being clamped and bytes validated |
| `SimulatorDefaults.ClampedMacFits` | backend/app/services/simulator_service.py:351-374 | a clamped address satisfies every constraint that shows its sizes and whose first size bound can be met |
| `SimulatorDefaults.DefaultParse` | backend/app/services/runtime.py:1512-1590 | a generated payload parses unless it is a negative value of an unsigned type, and the validator sees the number drawn or length generated |
| `SimulatorDefaults.DefaultIsAcceptedExactlyWhen` | backend/app/services/runtime.py:1369-1404 | with an ASCII name, and a constraint that hides nothing of the kind generated, a default passes the runtime parser and the check of its own node if and only if it is not one of three cases where the generator ignores the constraint: BITS with a violated SIZE, a first enum value outside the constraint, a negative range on an unsigned type |
| `SimulatorDefaults.InstanceObject` | backend/app/services/simulator_service.py:408-421 | every instance gets a default of its own node, with its row number in place of it on a numeric index column whose constraint allows the number; it fails only on an empty draw range |
| `SimulatorDefaults.BundleObjects` | backend/app/services/simulator_service.py:377-424 | object by object: the k-th object is at the OID of the k-th expected instance, under the SNMP type that the resolved syntax of its node names, with its row number or a default of that node |
| `SimulatorDefaults.SlotsOfNode` | backend/app/services/simulator_service.py:391-421 | instance 0 of an accessible current scalar, rows 1 and 2 of such a column, and nothing else |
| `SimulatorDefaults.TakesRowNumberExactlyWhen` | backend/app/services/simulator_service.py:407-421 | a number default is replaced by the row number if and only if the instance is of a column whose name contains index in any case, without enums, and its constraints allow the number |
| `SimulatorDefaults.BundleIsAccepted` | backend/app/services/runtime.py:1369-1404 | where the bundle lookup of a target finds the constraints of its generating node, the runtime accepts the object generated for a well-behaved node, whatever it finds for the others |
| `SimulatorDefaults.ObjectIsAcceptedExactlyWhen` | backend/app/services/runtime.py:1391-1404 | whatever node the lookup answers, the runtime accepts a generated object if and only if the constraints it finds allow the value |
| `SimulatorDefaults.SlotIsAcceptedExactlyWhen` | backend/app/services/runtime.py:1369-1404 | whatever constraints the lookup finds, the runtime accepts every value an instance may be given if and only if they allow its one value (the clamped text, say), its row number, or the whole range drawn from |
| `SimulatorDefaults.OtherOwnerRefuses` | backend/app/services/runtime.py:1391-1404 | two Integer32 scalars that declare one OID with ranges 1..1 and 5..5: the value generated for the first is accepted under its own node and refused under the other |
| `WalkGrouping.DecodeColumns` | backend/app/services/walker_service.py:238-265 | the loop with its moving position computes the column-by-column decoding |
| `WalkGrouping.DecodeInstanceIndex` | backend/app/services/walker_service.py:224-265 | the whole decoding, with the column prefix check |
| `WalkGrouping.DecodeSucceedsExactlyWhen` | backend/app/services/walker_service.py:224-265 | decoding succeeds if and only if the suffix fits the columns: one arc per integer column, then bytes |
| `WalkGrouping.IntegerIndexExactlyWhen` | backend/app/services/walker_service.py:240-246 | with integer columns decoding succeeds if and only if there is one arc per column, and gives the decimals |
| `WalkGrouping.InstancePartsOfText` | backend/app/services/walker_service.py:229-236 | the dotted text the runtime prints reads back as its OID |
| `WalkGrouping.IndexKeyIsInjective` | backend/app/services/walker_service.py:224-265 | with the UTF-8 decoding of the service, the key determines the instance unless its text holds a replacement character |
| `WalkGrouping.SameKeyExactlyWhen` | backend/app/services/walker_service.py:224-265 | for every decoder and all fitting suffixes, two instances get one key if and only if their leading integer arcs are equal and the remaining arcs decode to equal text |
| `WalkGrouping.ReplacedBytesCollide` | backend/app/services/walker_service.py:247-262 | any two bytes that occur in no UTF-8 character, such as 0xFE and 0xFF, give two instances one key |
| `Utf8Text.DecodeOfUtf8` | backend/app/services/walker_service.py:247-262 | any text survives encoding and the decoding with replacement |
| `Utf8Text.DecodedIsInjective` | backend/app/services/walker_service.py:247-262 | bytes that decode to equal text without a replacement character are equal |
| `WalkGrouping.SameRowExactlyWhen` | backend/app/services/walker_service.py:341-362 | resolved varbinds share an output row if and only if they have the same owning row or scalar and the same index key |
| `WalkGrouping.SameInstanceExactlyWhen` | backend/app/services/walker_service.py:341-362 | cells of one table whose instances fit share a row if and only if the instances read the same, for every decoder |
| `WalkGrouping.IntegerIndexedCells` | backend/app/services/walker_service.py:164-265 | cells of a table whose declared index syntaxes are Integer32, INTEGER or InterfaceIndex share a row if and only if their instances are equal |
| `WalkGrouping.TextIndexedCells` | backend/app/services/walker_service.py:164-265 | with a trailing DisplayString or OCTET STRING they share a row if and only if the integers are equal and the rest decodes to equal text |
| `WalkGrouping.NumericSyntaxes` | backend/app/services/walker_service.py:164-166 | Counter32, Gauge32, TimeTicks, RowStatus and TruthValue indexes are integers too |
| `WalkGrouping.UnknownIndexFallsBack` | backend/app/services/walker_service.py:26-50 | a table with an IpAddress, Unsigned32 or DateAndTime index is keyed by the tail of the label |
| `WalkGrouping.DateAndTimeIsUnknown` | backend/app/services/walker_service.py:39-50 | DateAndTime is neither an integer nor a string syntax, the marker meant for it being misspelt |
| `WalkGrouping.OtherKeys` | backend/app/services/walker_service.py:341-362 | a scalar is keyed by its name and tail, an object without context by its tail alone |
| `WalkGrouping.GroupRows` | backend/app/services/walker_service.py:306-385 | the loop with its cache yields one row per key in first-appearance order, each built from the varbinds of its key alone |
| `WalkGrouping.RowsShowLatestReadings` | backend/app/services/walker_service.py:366-385 | every output row shows for every symbol the latest metric and the latest label that the walk holds for its key, and no others |
| `WalkGrouping.IntegerIndexIsShown` | backend/app/services/walker_service.py:306-385 | the row of a cell of a table indexed by integers shows the instance in decimals |
| `Grouping.GroupOneMore` | backend/app/services/walker_service.py:366-385 | adding one varbind to its row keeps that |
| `SourceDelete.MutationService.CollectDeleteRequests` | backend/app/services/mib_mutations.py:433-449 | distinct non-blank names become requests with saved contents, stopping at the first missing file |
| `SourceDelete.MutationService.UnlinkAll` | backend/app/services/mib_mutations.py:535-540 | unlinks in order, stopping at the first failure, removing only requested paths |
| `SourceDelete.MutationService.RestoreDeletedSources` | backend/app/services/mib_mutations.py:451-460 | restoring brings back the original tree below whatever is there |
| `SourceDelete.MutationService.DeleteUploadedMibs` | backend/app/services/mib_mutations.py:520-579 | from the names alone: it is refused exactly when no name asks for a file or one asks for a file that is not there; after Done no requested path is left unless fetched again and every other path is what it was or what was fetched; and the bundle state after each stage |
| `SourceDelete.MutationService.DeleteUploadedMib` | backend/app/services/mib_mutations.py:469-518 | the same for a single delete with an optional rebuild |
| `SourceDelete.CollectedPaths` | backend/app/services/mib_mutations.py:433-449 | the requested paths are those of the distinct stripped non-blank names with forward slashes, and a list is refused exactly for a missing file |
| `SourceDelete.DeletionByNames` | backend/app/services/mib_mutations.py:520-579 | stage, tree and bundles after a deletion, from the names |
| `SourceDelete.FailedDeleteRestoresExactlyWhen` | backend/app/services/mib_mutations.py:535-579 | a failed delete leaves the source tree as it was if and only if not: every unlink and the rebuild go through and the rebuild fetches something new |
| `SourceDelete.DeleteSucceedsExactlyWhen` | backend/app/services/mib_mutations.py:520-579 | a delete succeeds if and only if every requested file can be unlinked, the rebuild works and no later step fails |
| `SourceDelete.FailedDeleteKeepsActiveExactlyWhen` | backend/app/services/mib_mutations.py:535-558 | a failed delete leaves the active and the served bundle alone if and only if not: every unlink and the rebuild go through and the rebuild activates a row other than the active one |
| `SourceDelete.RebuildWorksExactlyWhen` | backend/app/services/mib_mutations.py:285-344 | the rebuild reports success if and only if its compile, target and disk allow it, and then the row it activates is active and served |
| `SourceDelete.FailedDeleteKeepsActiveBundle` | backend/app/services/mib_mutations.py:535-558 | a delete in which an unlink or the rebuild does not go through changes neither the active bundle, the served one nor the rollback target |
| `SourceDelete.LateFailureKeepsNewBundle` | backend/app/services/mib_mutations.py:541-558 | the case of a newly compiled bundle: a failure after its activation restores files but keeps it active |
| `OidTree.Scan` | backend/app/services/browser_service.py:251-267 | one pass yields the nodes one arc below the root, the exact descendant count, and exactly the child-level ancestors of deeper nodes |
| `OidTree.GetOidTree` | backend/app/services/browser_service.py:251-278 | the listing equals the naive definition: children one arc down, flagged as expandable exactly when a node lies strictly below, sorted by text |
| `OidTree.ListingByFields` | backend/app/services/browser_service.py:251-278 | a node is listed if and only if it is one arc below the root, expandable exactly when a longer OID starts with its own |
| `OidTree.ListingInTextOrder` | backend/app/services/browser_service.py:269-273 | the listing is in the text order of the dotted OIDs |
| `OidTree.ListingKeepsChildren` | backend/app/services/browser_service.py:269-273 | sorting keeps every child as often as it occurs |
| `OidTree.BuildChildrenByParent` | backend/app/services/browser_service.py:145-157 | the climbing loop files each node under its nearest present ancestor, and keys exist only for non-empty lists |
| `OidTree.NearestIsLongestPrefix` | backend/app/services/browser_service.py:151-156 | the key of a node is its longest proper prefix present, or empty |
| `OidTree.EachNodePlacedOnce` | backend/app/services/browser_service.py:145-157 | a node occurs under its nearest ancestor as often as in the input, and nowhere else |
| `OidTree.ForestCoversNode` | backend/app/services/browser_service.py:145-157 | from the virtual root a strictly lengthening descent leads to every node |
| `OidTree.MapHasChildrenExactlyWhen` | backend/app/services/browser_service.py:184-196 | a present node has children in the map if and only if some node lies strictly below it |
| `OidTree.TopLevelIsListedAgainExactlyWhen` | backend/app/services/browser_service.py:189-190 | a top-level node of a module is also listed under another node if and only if a more distant ancestor is present |
| `OidSearch.TryOidIndexSearch` | frontend/js/modules/browser.js:908-926 | the scan returns a longest non-empty key passing the string test, or none if there is none |
| `OidSearch.MatchesExactlyPrefixes` | frontend/js/modules/browser.js:919 | the string test "equal or starts with key + dot" is the arc-prefix test |
| `OidSearch.SearchFindsLongestPrefix` | frontend/js/modules/browser.js:908-926 | on dotted OIDs the result is the text of the unique longest arc-prefix in the index, and there is none if and only if the index holds no prefix |
| `EventHistory.EventHistoryService.RecordEvent` | backend/app/services/history.py:27-130 | a normalized event and its mirror row are added together, or the input is refused and nothing changes |
| `EventHistory.AdmittedExactlyWhen` | backend/app/services/history.py:27-60 | an event is admitted if and only if its direction, stripped and in lower case, is received, sent or decoded and its PDU type is not blank |
| `EventHistory.MirrorFields` | backend/app/services/history.py:88-130 | the mirror row holds the id and the texts of its event, a missing text as an empty one |
| `EventHistory.EventHistoryService.ClearEvents` | backend/app/services/history.py:214-222 | both tables become empty and the number of events is reported |
| `EventHistory.EventHistoryService.ClearReceivedEvents` | backend/app/services/traps_service.py:434-444 | received events and their mirror rows go, nothing else |
| `EventHistory.EventHistoryService.DeleteEvent` | backend/app/services/traps_service.py:447-467 | one received event and its mirror row go, or nothing changes |
| `EventHistory.RunsKeepMirror` | backend/app/services/history.py:63-130 | over every run of record, clear-all, clear-received and delete-one, with ids reused, the mirror holds exactly one row per event, with its id and direction |
| `EventHistory.DeleteRemovesExactlyThatEvent` | backend/app/services/traps_service.py:447-467 | delete succeeds if and only if the id is a received event, and removes exactly that row |
| `EventHistory.OtherEventsSurvive` | backend/app/services/traps_service.py:434-467 | without a full clear, sent and decoded events are never lost, changed or reordered |
| `EventHistory.BuildQuery` | backend/app/services/history.py:160-204 | the query built filter by filter selects exactly the rows passing all given filters |
| `EventHistory.EventHistoryService.ListEvents` | backend/app/services/history.py:132-212 | a page of the ordered selection with the total, or the paging and direction errors |
| `EventHistory.ListingIsRefusedExactlyWhen` | backend/app/services/history.py:148-161 | a listing is refused if and only if the limit is outside 1 to 500, the offset negative or the direction unknown |
| `EventHistory.SingleColumns` | backend/app/services/history.py:168-192 | each column filter alone selects exactly the events it names, both time bounds included |
| `EventHistory.SingleTexts` | backend/app/services/history.py:174-190 | each text filter alone selects exactly the events whose column matches |
| `EventHistory.NewestComesFirst` | backend/app/services/history.py:164-167 | the selection is strictly ordered: newest first, then higher id |
| `EventHistory.PageByIndex` | backend/app/services/history.py:206-212 | a page holds the entries of the ordered selection from the offset on, at most the limit |
| `EventHistory.SearchFindsExactlyMatchingEvents` | backend/app/services/history.py:234-248 | a search reports exactly the ids of the events whose own text matches |
| `EventHistory.ListingSelectsFromEvents` | backend/app/services/history.py:160-212 | the listing is the naive one over the event table, the mirror adding and hiding nothing |
| `EventHistory.ListingIgnoresStorageOrder` | backend/app/services/history.py:161-164 | the listing depends on which events are stored, not on their storage order |
| `EventHistory.PagesListEachEventOnce` | backend/app/services/history.py:206-212 | enough concatenated pages list each selected event exactly once, newest first with ties broken by the higher id, and the total is their number |
| `Percentile.PercentileIsMonotone` | scripts/benchmark_release_comparison.py:164-180 | a larger percentage never gives a smaller value |
| `Percentile.PercentileWithinSample` | scripts/benchmark_release_comparison.py:164-180 | the value lies between the least and greatest sample and reaches them at 0 and 100 |
| `Percentile.PercentileHitsOrderStatistics` | scripts/benchmark_release_comparison.py:173-177 | at an integer rank k it is a sample with at least k+1 samples no greater and at least n-k no smaller |
| `Percentile.PercentileIgnoresOrder` | scripts/benchmark_release_comparison.py:164-180 | the order of the samples does not matter |
| `Percentile.PercentileIsLinearBetweenRanks` | scripts/benchmark_release_comparison.py:173-180 | between two neighbouring ranks the value lies on the line through their samples |

## Left out

- UDP sockets, the BER codec and the SNMP and SMI libraries: unseen code. The library's type names
  are taken to be the canonical ones ("integer", "octet-string", ...), its value constructors'
  own range checks are not modelled, and enriching a recorded varbind is taken to keep its OID and
  value.
- Regex extraction of MIB names and imports, file-name suffix parsing and storage naming: an upload
  entry carries its name, validity and imports.
- `strip` removes ASCII whitespace only, and lower-casing is ASCII only; no Unicode normalization.
- The bundled directory and the content scan of the source search: they run only when no upload
  directory holds a file of the name, and the prediction always names one.
- Content hashes are opaque; no claim rests on equal hashes meaning equal content.
- Start-up loading of a bundle, bootstrap compiles and process restarts: memory starts empty.
- CompareBundles: names are reported as sets, not as sorted lists, and without the inventories and
  summaries shown beside them.
- The display text of a value, symbolic names, base64 decoding and constraint acceptance in replay
  are parameters; byte objects as values of a payload (not possible in JSON) are not modelled.
- Target host, community and notification OID of a replay: easy precedence of given over stored.
- Last-activity stamps, activity entries and status texts of the responder. Any event of a created
  responder may fall into any wait, which is more than the service's own tasks do.
- The OID lookup of a bundle is a parameter of what the runtime accepts.
- The prediction theorem is about MIBs with a name; under a blank one nothing is searched.
- The display time, requested_oids and returned_oids of a log entry; localStorage.
- Constraint list elements other than integer pairs are one case (skipped); enum maps are lists of
  label and value.
- Splitting a walk label into module, object and tail, the choice between metric and label, and the
  flattening of rows into records: a walked varbind carries them.
- Directory pruning after a delete; writing a restored file always succeeds.
- LIKE and full-text matching are parameters; the query tokenizer is part of the latter.
- DefaultIsAcceptedExactlyWhen: the equivalence is for ASCII names and for constraints that show what
  they reject and whose first size bound can be met; beyond them single inputs are given.
- Rounding of floating-point percentiles: reals are exact.
- Random draws are any value in their range.
