# A verified model of the edge runtime's core

This project models the stateful, deterministic core of the Convilyn edge SDK and proves what its
documentation promises of it, for every input, run and environment.

- **Pipelines.** The declarative stages as a recursive datatype, the short-circuiting fold with its
  routers, the action gate, and the rewrite that rebinds a gate over a whole tree (`Pipeline`,
  `PipelineSafety`, `PipelineGate`, `PipelineFlat`).
- **Offline.** The line-framed durable queue with its lazily built key index, the emitter that drains
  it, the threshold aggregator that prunes it, and all three in a process that dies in the middle of
  appends (`Lines`, `Queue`, `Emitter`, `Aggregator`, `Crash`, `CrashEmitter`, `CrashAggregator`).
- **Grounding.** Whitespace normal forms, verbatim anchors, the greedy total-size cap, closed-set
  labels (`Text`, `TotalCap`, `Anchors`, `ClosedSet`).
- **Control loops and bundles.** Retry with backoff, the event loop and its stuck-abort, health
  polling; fetching, staging, verifying, installing and fingerprinting a bundle (`Retry`, `Driver`,
  `DriverEmitter`, `Watchdog`, `Payload`, `Staging`, `Install`, `Bundle`).

## How it is modelled

Code that updates objects is a class (`DurableQueue`, `EventEmitter`, `ThresholdAggregator`,
`CycleGuard`, `BoundedSink`, `DeviceStore`); code that loops is a method with its loop. Each such
method is proved equal to a function of its inputs and the old state, and the lemmas are about that
function.

Code outside the model is a function parameter: the SPI primitives answer as a function of the whole
log of calls so far, the transport and the event handler as a function of everything attempted so
far, so they may answer differently every time. Bindings may raise. JSON, SHA-256 and case folding
are parameters too, and each theorem says in its `requires` what it relies on: encoded records are
single non-blank lines that decode to themselves (`Queue.Sound`, section 7 of RFC 8259); for torn
appends, a record cut short does not parse, alone or in front of another (`Queue.TornSafe`), nor do
any two or more cut or whole records run together on one line (`Crash.CrashSafe`); the digest is
injective. About case folding nothing is assumed. The assumption about lines of many pieces is met by
JSON objects whose first key starts with a letter: every piece starts with a brace, which no JSON text
continues with after a value, a key or a backslash; inside a string the piece's first quotation mark
closes the string, and a letter follows; as a value the brace leaves the outer object open.
`Crash.BitsAreSafe` gives a codec that meets all of these.

Instants and the window are integers in microseconds, clamped to the years 1 to 9999 as the program
clamps them. Delays are reals. Text is a sequence of characters, file bodies a sequence of bytes.

One result differs from the documentation, and the code is followed. Grounding is described as the
local mirror of the server's check, so that a second grounding changes nothing. That holds for every
input exactly when the sentinel is stable under cleaning (`Anchors.SentinelStable`, which can be
checked before the call) or nothing verbatim is asked for: `Anchors.GroundFixedIffStable`,
`ClosedSet.FieldsFixedIffStable`. The default sentinel is stable (`Anchors.TidyIsStable`); a padded one
need not be (`Anchors.PaddedExample`).

The queue documents that a torn line is skipped, with a bounded loss. The bound is two records, not
one, because the next enqueue continues the torn line: `Queue.TornAppendDamage` says exactly what is
lost for every cut point, `Crash.TearsLoseAtMostTwo` bounds it for every run with any number of tears.

`dafny verify dfyconfig.toml` checks everything.

## Model

| member | source | states |
|---|---|---|
| `Pipeline.DriveSteps` | src/convilyn_edge/runtime/pipeline.py:238-255 | The loop over stages, appending outcomes and rebinding the state, computes the short-circuiting fold, through routers at any depth |
| `Pipeline.RunOne` | src/convilyn_edge/runtime/pipeline.py:275-289 | A router resolves its key by route, then default, then dead end, and runs its branch by the same fold |
| `PipelineSafety.StepStops` | src/convilyn_edge/runtime/pipeline.py:52-55 | Once a stage at any depth rejects, denies or halts, it is the last event of the run: no sink, model or human is called after it; a run reports exactly the status of that stage |
| `PipelineSafety.DriveStops` | src/convilyn_edge/runtime/pipeline.py:241-247 | The same for a list of stages: a run that completes or raises has no stopping stage anywhere in it |
| `PipelineSafety.DriveOutcomes` | src/convilyn_edge/runtime/pipeline.py:238-255 | Step results match the stages one to one in order, all are OK but possibly the last, whose status is the run's; completion means that all ran and were OK |
| `PipelineSafety.DriveKeeps` | src/convilyn_edge/runtime/pipeline.py:59-74 | A run changes no output under a name that no stage of its tree carries, and never the envelope |
| `PipelineSafety.LeafReasons` | src/convilyn_edge/runtime/pipeline.py:129-235 | A stage rejects if and only if a normalizer or operator replies with an error, leaving the state and giving the code; it is denied if and only if an action is refused, and halts if and only if an action fails or a review stops, with the reason; so state and model stages never stop a run; what does not reject changes the state by one output, under its own name, holding what its primitive answered to the bound input; an unavailable or invalid model result always falls back, an uncertain one is accepted only where that is allowed and it has an output |
| `PipelineSafety.LeafExact` | src/convilyn_edge/runtime/pipeline.py:129-235 | When a stage returns, for every kind of stage: if and only if its bindings return and so does the primitive it reaches; otherwise it raises the fault of the first one that raised. Its own call is made exactly when it is admitted (a human is not asked after the deadline, a sink not called against the gate's level or an approval asked for), and the log grows by that call and then by the stage's end if it returned |
| `PipelineSafety.ReviewExact` | src/convilyn_edge/runtime/watchdog.py:121-165 | A review whose deadline passes unanswered ends with the declared default, marked as expired; any other ends as the human's answer does; a passed deadline is not asked about; without a deadline the human is always waited for |
| `PipelineSafety.DriveStoppedBy` | src/convilyn_edge/runtime/pipeline.py:48-55 | A run that stops was stopped by one stage of its tree, at any depth, in the state and with the log the run had when it reached it; that stage returned the run's status, for its reason (an error reply or a router without a branch rejects, a refused action denies, a failed action or a stop halts), and nothing follows it |
| `PipelineSafety.DriveRaises` | src/convilyn_edge/runtime/pipeline.py:238-255 | A run that raises does so in one stage of its tree that it reached, at any depth, with that stage's fault and log |
| `PipelineSafety.ReachedEnds` | src/convilyn_edge/runtime/pipeline.py:238-289 | Conversely, a reached stage that raises ends the run with its fault, one that stops ends it with its status, and nothing is done afterwards |
| `PipelineSafety.RunExact` | src/convilyn_edge/runtime/pipeline.py:457-461 | A run starts from the envelope and no outputs, carries the pipeline's name and one result for each stage that ran; it is completed if and only if every stage ran and was OK; it raises exactly when its stages do |
| `PipelineSafety.RouterRecord` | src/convilyn_edge/runtime/pipeline.py:258-289 | A router runs the selected branch or its default, never another, reports that branch's status and last detail, and records its key and exactly the results of the stages that ran in it; without a branch it rejects, says which key had none and records it |
| `PipelineSafety.GateExact` | src/convilyn_edge/runtime/gate.py:56-86 | For every gate: the sink is called if and only if its risk is within the gate's level and no approval is required, or an approved authorization is given; with the authorization given if there is one, otherwise the system grant. Else nothing is called and the answer is a refusal that names the action and its risk |
| `PipelineSafety.StepPermitted` | src/convilyn_edge/runtime/pipeline.py:219-235 | In every run of a governed stage, at any depth, a sink whose risk is above the gate's level or that requires approval is invoked only with an approved authorization |
| `PipelineSafety.DrivePermitted` | src/convilyn_edge/runtime/gate.py:70-86 | The same for every list of governed stages |
| `PipelineGate.WithGateLoop` | src/convilyn_edge/runtime/pipeline.py:292-313 | The loop over stages, recursive through routers, computes the rebinding of a tree |
| `PipelineGate.WithGateKeeps` | src/convilyn_edge/runtime/pipeline.py:292-313 | Rebinding changes gates and nothing else: names, primitives, bindings, defaults and the shape of the tree stay |
| `PipelineGate.BuilderExact` | src/convilyn_edge/runtime/pipeline.py:420-455 | What the two builder calls that look at the gate append: an action stage with the pipeline's own gate, and a router whose branches are the given ones, changed in nothing but their gates, and governed by it |
| `PipelineGate.RebindRoutes` | src/convilyn_edge/runtime/pipeline.py:307-310 | Every branch of a router is rebound, and none is added or dropped, whatever the order of the routes |
| `PipelineGate.LastGateWins` | src/convilyn_edge/runtime/pipeline.py:292-302 | Rebinding twice is rebinding to the second gate, at any nesting |
| `PipelineGate.GovernedIffFixed` | src/convilyn_edge/runtime/pipeline.py:301-302 | A pipeline is left alone by the rewrite exactly when every action stage and branch in it already carries that gate |
| `PipelineGate.WithGateGoverns` | src/convilyn_edge/runtime/pipeline.py:296-300 | After the rewrite one gate governs the whole composition |
| `PipelineGate.OutermostGateGoverns` | src/convilyn_edge/runtime/pipeline.py:420-455 | For every chain of builder calls, at any nesting and whatever gates the branches were built with, every action stage carries the outermost pipeline's gate |
| `PipelineGate.RebindIsRebuild` | src/convilyn_edge/runtime/pipeline.py:292-313 | Rebinding a built pipeline gives the pipeline built from that gate in the first place, branches included |
| `PipelineGate.InnerGatesDoNotMatter` | src/convilyn_edge/runtime/pipeline.py:449-455 | What is built does not depend on the gates of inner pipelines |
| `PipelineGate.BuiltRunsArePermitted` | src/convilyn_edge/runtime/pipeline.py:457-461 | In every run of every built pipeline, an action whose risk is above the level of the outermost gate, or that requires approval, is invoked only with an approved authorization |
| `PipelineGate.DefaultGateNeedsApproval` | src/convilyn_edge/runtime/gate.py:10-16 | With the default gate, in every run of every built pipeline, an action of risk R2 or above, or one that requires approval, is invoked only with an approved authorization |
| `PipelineFlat.BranchSmaller` | src/convilyn_edge/runtime/pipeline.py:284 | Replacing a router at the head of a work list by the stages of a branch makes the total tree size smaller, so flattening terminates |
| `PipelineFlat.Simulates` | src/convilyn_edge/runtime/pipeline.py:238-289 | Running a tree and then a work list is running the flattened work list: same log, same exception or status, same outputs outside router names |
| `PipelineFlat.RoutersRunFlat` | src/convilyn_edge/runtime/pipeline.py:258-289 | For every tree of routers, envelope and environment, the interpreter and the flat work-list machine end with the same status, the same calls in the same order and the same outputs, if no binding reads a router's own output |
| `Lines.SplitJoin` | src/convilyn_edge/offline/queue.py:91 | Splitting joined parts gives the parts back, when none contains the separator |
| `Queue.RoundTrip` | src/convilyn_edge/offline/queue.py:80-98 | Reading a written file returns exactly the records written, in order |
| `Queue.DurableQueue.ReadLines` | src/convilyn_edge/offline/queue.py:80-98 | The parse loop, skipping blank and torn lines, returns the contents of the file |
| `Queue.DurableQueue.KeysIndex` | src/convilyn_edge/offline/queue.py:100-104 | The index is built from the file only when it is absent, and cached; the file is untouched |
| `Queue.DurableQueue.Enqueue` | src/convilyn_edge/offline/queue.py:120-131 | The whole new state, file and index, and whether the record was written |
| `Queue.DurableQueue.Extend` | src/convilyn_edge/offline/queue.py:133-135 | Enqueues in order and counts the records actually written |
| `Queue.DurableQueue.Clear` | src/convilyn_edge/offline/queue.py:137-140 | No file, and an empty index that is known |
| `Queue.DurableQueue.Replace` | src/convilyn_edge/offline/queue.py:142-163 | The file holds exactly the given records and the index their keys; no records means no file |
| `Queue.DurableQueue.Keys` | src/convilyn_edge/offline/queue.py:110-112 | The queued keys; at most the cache changes |
| `Queue.DurableQueue.IsEmpty` | src/convilyn_edge/offline/queue.py:117-118 | True exactly when nothing is pending |
| `Queue.AppendAddsRecord` | src/convilyn_edge/offline/queue.py:120-131 | On disk, an enqueue adds the record at the end unless its key is there, and the index stays exact |
| `Queue.RewriteHolds` | src/convilyn_edge/offline/queue.py:142-163 | A rewritten file reads back as the records, with an exact index |
| `Queue.AppendAllAddsFresh` | src/convilyn_edge/offline/queue.py:133-135 | Appending many records adds exactly those with fresh keys, first come first served, even from an index that is not exact |
| `Queue.PerformIsFifo` | src/convilyn_edge/offline/queue.py:76-163 | Each operation, restarts included, answers as a plain keyed list does and keeps the cached index equal to the key set of the file |
| `Queue.QueueIsKeyedFifo` | src/convilyn_edge/offline/queue.py:62-74 | For every sequence of operations and restarts by a sole writer, all answers and the final contents are those of the plain list; restarts are invisible |
| `Queue.ReadTorn` | src/convilyn_edge/offline/queue.py:95-97 | A torn last line hides its own record, or nothing if only its newline is missing, and whatever is appended to it |
| `Queue.TornAppendDamage` | src/convilyn_edge/offline/queue.py:120-131 | An append cut at any character, a restart and further enqueues: exactly which records are left; at most the torn one and the next fresh one are lost |
| `Queue.TornLosesOnlyItself` | src/convilyn_edge/offline/queue.py:120-131 | Nothing but the torn record is lost if and only if none or all of its text reached the file or nothing fresh was enqueued afterwards |
| `Crash.TouchHolds` | src/convilyn_edge/offline/queue.py:76-163 | With a torn tail in the file, every operation, torn append and restart still answers as a plain list with a tail does |
| `Crash.TouchAllKeeps` | src/convilyn_edge/offline/queue.py:80-87 | In every run the plain list is what was appended, in order, less at most two records for each tear, counting what the next append takes with it |
| `Crash.TearsLoseAtMostTwo` | src/convilyn_edge/offline/queue.py:80-98 | For every sequence of operations, restarts and appends torn at any character: all answers are those of the plain list, and the contents are the records appended since the last clear or rewrite, in order, less at most two for each tear |
| `Emitter.EventEmitter.Emit` | src/convilyn_edge/offline/emitter.py:71-81 | Sends once; only an offline send enqueues; a refusal propagates without buffering |
| `Emitter.EventEmitter.Flush` | src/convilyn_edge/offline/emitter.py:83-114 | Drains the pending records and rewrites the queue to the survivors; the report counts them |
| `Emitter.EventEmitter.FlushDies` | src/convilyn_edge/offline/emitter.py:94-112 | A flush that dies before its rewrite leaves the queue as it was, whatever it sent |
| `Emitter.EventEmitter.Drain` | src/convilyn_edge/offline/emitter.py:95-112 | The send loop stops at the first offline send and keeps that record and everything after it |
| `Emitter.EmitExact` | src/convilyn_edge/offline/emitter.py:71-81 | One send each, with the verdict of the transport at that point; the reply says how it ended; a buffered event is in the queue afterwards, added at the end unless its key was there; any other leaves the queue as it was |
| `Emitter.FlushPartitions` | src/convilyn_edge/offline/emitter.py:83-112 | A flush gives one final attempt to each record of a prefix, in order, finds the next one offline, and keeps the rest unchanged; a record that parses is sent and gets the verdict of the transport at that point, one that does not is dropped unsent |
| `Emitter.FlushExact` | src/convilyn_edge/offline/emitter.py:83-114 | The same of a flush of the durable queue, whose contents and report are pinned: applied is the number of deliveries, rejected that of refusals and drops, requeued that of the records still in the queue |
| `Emitter.CutExact` | src/convilyn_edge/offline/emitter.py:94-112 | A flush that dies leaves the queue alone, and treats each record it got to as any flush does |
| `Emitter.AppliedIsDelivered` | src/convilyn_edge/offline/emitter.py:96-114 | The applied count of a flush is the number of its deliveries |
| `Emitter.FlushAttempts` | src/convilyn_edge/offline/emitter.py:98-112 | A flush adds exactly one final attempt for each record it takes off the queue |
| `Emitter.StandingStep` | src/convilyn_edge/offline/emitter.py:71-114 | Every emit, flush, cut-short flush and restart keeps the ledger of each event: unknown, pending, or attempted at least once and at most once more than there were cut-short flushes |
| `Emitter.NothingLost` | src/convilyn_edge/offline/emitter.py:12-17 | Over any run in which an event is emitted once, it has been delivered, refused or dropped, or is still pending, and got at most 1 + (cut-short flushes) final attempts; only a record that does not parse is ever dropped, and every delivery and refusal is what the transport answered |
| `CrashEmitter.TracedStep` | src/convilyn_edge/offline/emitter.py:71-114 | Emits that die in their append keep the ledger too: an event is pending at most once and never gets more than 1 + (cut-short flushes) final attempts |
| `CrashEmitter.LostOnlyAtStake` | src/convilyn_edge/offline/emitter.py:71-114 | Which events one step of a run can lose: the one whose record does not start on a new line or is torn, and the one of a dangling record before it |
| `CrashEmitter.LostStep` | src/convilyn_edge/offline/emitter.py:71-114 | How many: the lost events and those at risk grow by at most two with a death, and not at all otherwise |
| `CrashEmitter.LossIsBounded` | src/convilyn_edge/offline/emitter.py:12-17 | Over every run with emits that die anywhere in their append, each event emitted once: all but at most two events for each death are pending or had a final attempt; only a record that does not parse is ever dropped, and every delivery and refusal is what the transport answered |
| `Aggregator.ThresholdAggregator.TakeSnapshot` | src/convilyn_edge/runtime/aggregate.py:192-247 | The stored file, its index and the returned state after a call |
| `Aggregator.PruneScrubs` | src/convilyn_edge/runtime/aggregate.py:209-216 | Whatever was in the store, after pruning it holds exactly the well-shaped records in the retention band, and every one has a key |
| `Aggregator.SnapshotOnList` | src/convilyn_edge/runtime/aggregate.py:192-247 | A call on the durable store is a call on a plain list, and keeps the index exact |
| `Aggregator.StoreIsBand` | src/convilyn_edge/runtime/aggregate.py:201-229 | Under any clock, after a call the store holds exactly the well-shaped records stamped at most one window before or after now, with the event if it was recorded, which it is exactly when no such record has its id; so an id stored beyond the band is accepted again |
| `Aggregator.LiveIsLiveList` | src/convilyn_edge/runtime/aggregate.py:152-168 | A whole durable run, restarts anywhere in it, is the run on a plain list |
| `Aggregator.ListIsWindow` | src/convilyn_edge/runtime/aggregate.py:162-168 | With a clock that never goes back, after every call the store is exactly the accepted events of the whole history that are in the window, in order |
| `Aggregator.WindowIsHistory` | src/convilyn_edge/runtime/aggregate.py:132-141 | Each count is the number of accepted events of the whole history in the current bucket since now minus window, so pruning loses nothing and the breach flag is exact |
| `Aggregator.SmallStepsKeep` | src/convilyn_edge/runtime/aggregate.py:201-206 | If the clock never steps back more than a window, every recorded occurrence no older than a window against the largest reading so far is still stored |
| `Aggregator.SmallStepsCount` | src/convilyn_edge/runtime/aggregate.py:201-206 | And it counts in its bucket whenever the clock has reached its stamp |
| `Aggregator.StoredCountsNoMore` | src/convilyn_edge/runtime/aggregate.py:209-229 | Under any clock the store never holds more records of a bucket and period than were recorded |
| `Aggregator.NeverOvercounts` | src/convilyn_edge/runtime/aggregate.py:231-239 | Under any clock a count never exceeds the recorded events of the bucket stamped between now minus window and now |
| `CrashAggregator.LiveShows` | src/convilyn_edge/runtime/aggregate.py:192-247 | With appends that die anywhere, a durable run is a run on a plain list with a torn tail |
| `CrashAggregator.NotMuchLess` | src/convilyn_edge/runtime/aggregate.py:209-229 | With a clock that never goes back, the store holds all that was recorded of a bucket in the window, less at most two records for each tear |
| `CrashAggregator.TornCounts` | src/convilyn_edge/runtime/aggregate.py:231-239 | With appends that die anywhere, any number of times: under any clock a count never exceeds the recorded events of its bucket in the window, and with a clock that never goes back it falls short of them by at most two for each tear |
| `Text.CollapseIsJoin` | src/convilyn_edge/clientcompute/contract.py:45-47 | Substituting whitespace runs and stripping is joining the words with single spaces |
| `Text.CollapseFixed` | src/convilyn_edge/clientcompute/contract.py:45-47 | Collapsing keeps the words and is idempotent |
| `Text.WordsOfJoin` | src/convilyn_edge/authored/contract.py:52-54 | Splitting joined words gives the words back |
| `Text.WordsAtSpace` | src/convilyn_edge/authored/contract.py:52-54 | The words of a text split at any whitespace character are those of both sides; with `Text.WordsOne` and the empty text this says what words are |
| `Text.AsciiSpace` | src/convilyn_edge/clientcompute/contract.py:39 | The whitespace characters of ASCII |
| `TotalCap.TotalChars` | src/convilyn_edge/clientcompute/contract.py:185-186 | The total length of all values, in whatever order they are visited |
| `TotalCap.SortCandidates` | src/convilyn_edge/clientcompute/contract.py:196-199 | The one ordering, longest first and ties by key, of the values worth degrading |
| `TotalCap.EnforceTotalCap` | src/convilyn_edge/clientcompute/contract.py:178-203 | The degrading loop computes the cap |
| `TotalCap.OrderedUnique` | src/convilyn_edge/clientcompute/contract.py:181-183 | The order is deterministic: a set of keys has one ordering |
| `TotalCap.LongerGoFirst` | src/convilyn_edge/clientcompute/contract.py:196-203 | If the cap degrades a value, it degrades every longer one, and of equally long ones every one whose key comes before it |
| `TotalCap.CappedIsPrefix` | src/convilyn_edge/clientcompute/contract.py:200-203 | The cap degrades a prefix of the ordered candidates |
| `TotalCap.EnoughIsLeast` | src/convilyn_edge/clientcompute/contract.py:200-203 | And the shortest prefix that meets the cap, or all of them |
| `TotalCap.NoChoiceSavesMore` | src/convilyn_edge/clientcompute/contract.py:190-194 | No set of keys saves more characters than as many of the first candidates |
| `TotalCap.CapIsOptimal` | src/convilyn_edge/clientcompute/contract.py:190-194 | If any choice of degradations meets the cap, this one does, with the fewest keys of all; if none does, no choice reaches a smaller total |
| `TotalCap.CapFixed` | src/convilyn_edge/clientcompute/contract.py:178-203 | Capping a capped answer changes nothing |
| `TotalCap.CapKeepsOrDegrades` | src/convilyn_edge/clientcompute/contract.py:188-198 | The keys stay; each value stays or becomes the sentinel, and only values longer than it do; nothing happens under the cap |
| `Anchors.GroundAnchors` | src/convilyn_edge/clientcompute/contract.py:136-175 | The grounding loop and the cap after it compute the grounded answers |
| `Anchors.CleanExact` | src/convilyn_edge/clientcompute/contract.py:125-133 | A value is cleaned to what is left without control characters and without the whitespace around it, and fails if that is empty or over the limit or if it is no text |
| `Anchors.DropExact` | src/convilyn_edge/clientcompute/contract.py:40-42 | Control characters are left out one by one, the others keep their order |
| `Anchors.DropOne` | src/convilyn_edge/clientcompute/contract.py:40-42 | The characters left out are exactly those below U+0020 and from U+007F to U+009F, except tab, newline and carriage return |
| `Anchors.GroundedExact` | src/convilyn_edge/clientcompute/contract.py:168-169 | A value is found if and only if its words, with single spaces, stand together somewhere in the words of one source, with single spaces |
| `Anchors.AnswersAreGrounded` | src/convilyn_edge/clientcompute/contract.py:144-149 | Exactly the required keys are answered, each with the sentinel or with its own clean value, within the size cap, whose collapsed form is inside a collapsed source |
| `Anchors.GroundedIsKept` | src/convilyn_edge/clientcompute/contract.py:159-175 | A clean value found in a source is the answer, unless the total is over its cap and the value is longer than the sentinel |
| `Anchors.GroundFixed` | src/convilyn_edge/clientcompute/contract.py:136-175 | Grounding an answer again changes nothing, cap included, when the sentinel is stable or nothing is required |
| `Anchors.GroundFixedIffStable` | src/convilyn_edge/clientcompute/contract.py:125-175 | It changes nothing for every input if and only if the sentinel is stable or nothing is required |
| `Anchors.TidyIsStable` | src/convilyn_edge/clientcompute/contract.py:35 | A sentinel without control characters or outer blanks, such as the default, is stable whatever the sources |
| `Anchors.PaddedIsNot` | src/convilyn_edge/clientcompute/contract.py:130-133 | A sentinel with a blank in front is not stable when a source contains the rest of it |
| `Anchors.PaddedExample` | src/convilyn_edge/clientcompute/contract.py:161-172 | A concrete contract and source for which the sentinel is not stable and the second grounding differs from the first |
| `ClosedSet.FindLabelLoop` | src/convilyn_edge/authored/contract.py:132-145 | The search loop returns the grounded label, or none |
| `ClosedSet.GroundFieldsLoop` | src/convilyn_edge/authored/contract.py:248-272 | The loop over fields computes the grounded result |
| `ClosedSet.LabelIsUnique` | src/convilyn_edge/authored/contract.py:100-105 | A grounded value is an authored label, the only one whose normal form is that of what the model said; a value fails exactly when no label has it |
| `ClosedSet.SaidIsGrounded` | src/convilyn_edge/authored/contract.py:52-54 | Text other than the sentinel grounds to a label if and only if the words of the two, with single spaces, fold to the same text, and to none if and only if no label's do |
| `ClosedSet.WordsDecide` | src/convilyn_edge/authored/contract.py:132-145 | Texts with the same words, neither of them the sentinel, ground alike |
| `ClosedSet.SaysExact` | src/convilyn_edge/authored/contract.py:57-75 | What a scalar says: text itself, `true` or `false`, a whole number in decimal with its sign, other numbers as JSON writes them; anything else says nothing |
| `ClosedSet.LabelIgnoresOrder` | src/convilyn_edge/authored/contract.py:141-145 | The label does not depend on the order of the allowed values |
| `ClosedSet.VerbatimPart` | src/convilyn_edge/authored/contract.py:263-269 | The verbatim fields of a result are the grounded anchors, cap included |
| `ClosedSet.FieldsAreGrounded` | src/convilyn_edge/authored/contract.py:255-261 | The result has exactly the contract's fields; each is a grounded verbatim value, an authored label or the sentinel |
| `ClosedSet.ClosedExact` | src/convilyn_edge/authored/contract.py:258-260 | In a result, a closed-set field has a label if and only if the words of what the model said and those of the label, with single spaces, fold to the same text |
| `ClosedSet.RegroundVerbatim` | src/convilyn_edge/authored/contract.py:263-264 | Grounding a result again grounds its verbatim part again, independently of the closed-set part |
| `ClosedSet.FieldsFixed` | src/convilyn_edge/authored/contract.py:167-184 | Grounding a grounded result again changes no field, when the sentinel is stable or there is no verbatim field; rests on labels never colliding with the sentinel |
| `ClosedSet.FieldsFixedIffStable` | src/convilyn_edge/authored/contract.py:248-272 | That condition is exact |
| `Retry.RetryLoop` | src/convilyn_edge/runtime/policy.py:125-148 | The loop computes the result, the number of calls and every sleep |
| `Retry.RetryExact` | src/convilyn_edge/runtime/policy.py:132-139 | Calls go on exactly while they end in a retryable exception and the budget lasts; the last attempt is the result; between two calls there is exactly one sleep, of the delay for the first |
| `Retry.DelayBounds` | src/convilyn_edge/runtime/policy.py:80-87 | Without jitter a delay is never negative, never over the maximum, never over its uncapped value and never shorter than the one before |
| `Retry.DelayRecurrence` | src/convilyn_edge/runtime/policy.py:80-87 | Without jitter the first delay is the base delay, and each later one is the factor times the one before, but at most the maximum |
| `Retry.JitterApplies` | src/convilyn_edge/runtime/policy.py:82-87 | Under any jitter a delay is what the jitter makes of the delay without it, or zero where that is negative |
| `Retry.GeometricClosed` | src/convilyn_edge/runtime/policy.py:54-55 | The sum of the uncapped delays is the closed form of the geometric series |
| `Retry.UncappedTotal` | src/convilyn_edge/runtime/policy.py:50-148 | For every operation, a run whose last sleep is under the cap sleeps exactly the geometric sum in total |
| `Retry.BackoffBounds` | src/convilyn_edge/runtime/policy.py:50-148 | For every operation: at most `max_attempts` calls, one sleep fewer than calls, and a total sleep of at most (`max_attempts` - 1) times the maximum, of the sum of the uncapped delays and, for a factor above 1, of its closed form |
| `Driver.CycleGuard.Record` | src/convilyn_edge/runtime/policy.py:106-117 | The streak after one more signature, and whether it is stuck |
| `Driver.CycleGuard.Reset` | src/convilyn_edge/runtime/policy.py:119-122 | The streak is forgotten |
| `Driver.ProcessExact` | src/convilyn_edge/runtime/driver.py:228-252 | A record is that of the last attempt: processed with its value, buffered for an offline exception, failed with its kind for any other; earlier attempts all ended in retryable exceptions |
| `Driver.ProcessOne` | src/convilyn_edge/runtime/driver.py:228-252 | Processing one event under the retry loop gives its record |
| `Driver.NoteRecord` | src/convilyn_edge/runtime/driver.py:186-191 | The guard after one more record, and whether the run must abort |
| `Driver.RunDriver` | src/convilyn_edge/runtime/driver.py:145-206 | The event loop, on any guard, computes the records, the abort flag, the events pulled and the guard's end state |
| `Driver.StreakIsStretch` | src/convilyn_edge/runtime/policy.py:91-96 | The final streak of a list of records is at least m exactly when its last m records are failures of one kind |
| `Driver.GuardCountsStretch` | src/convilyn_edge/runtime/policy.py:106-117 | A guard that started fresh has counted that streak, so it is stuck at m exactly when the last m records are failures of one kind |
| `Driver.DriveFrom` | src/convilyn_edge/runtime/driver.py:174-191 | What the loop keeps from any point of a run with a fresh guard |
| `Driver.AbortIsExact` | src/convilyn_edge/runtime/driver.py:69-79 | With a fresh guard and the default progress key, each record is that of its own event; the run aborts if and only if the records contain `max_consecutive` adjacent failures of one kind, which is then their end; otherwise the stream or `max_events` ended it, the latter with one event pulled and dropped |
| `DriverEmitter.RunDriver` | src/convilyn_edge/runtime/driver.py:174-206 | The event loop with an emitter: same records, abort flag and pulls as without; each event with a record is emitted once, in order; then one flush, whose failure is swallowed |
| `DriverEmitter.FinalFlush` | src/convilyn_edge/runtime/driver.py:208-218 | The guarded flush: a whole flush and its report, or what there is of one that dies, and no report |
| `DriverEmitter.StaysAccounted` | src/convilyn_edge/offline/emitter.py:71-114 | An event that is pending or had a final attempt stays so under any operation, and an emit makes its event so |
| `DriverEmitter.EmitAllSends` | src/convilyn_edge/runtime/driver.py:180-181 | Before the flush each event is sent exactly once, in order |
| `DriverEmitter.NoEventVanishes` | src/convilyn_edge/runtime/driver.py:174-206 | After any run, however it ends and whether or not its final flush dies, every event pulled and not dropped at `max_events` has been delivered, refused or dropped, or is pending, and so has everything that was accounted for before; only what does not parse is dropped; and if the final flush did not die, events are pending only behind one that its last attempt found offline |
| `Watchdog.PollHealth` | src/convilyn_edge/runtime/watchdog.py:216-235 | The poll loop computes the deliveries and the last status heard |
| `Watchdog.DeliveriesExact` | src/convilyn_edge/runtime/watchdog.py:210-214 | For every sequence of readings, health faults and observer faults, the deliveries are exactly the readings the observer takes without adjacent repetitions |
| `Watchdog.EdgesDelivered` | src/convilyn_edge/runtime/watchdog.py:210-214 | No status is delivered twice in a row, and after a fault-free poll the last delivered status is the reading |
| `Watchdog.AllHeardIsStutterFree` | src/convilyn_edge/runtime/watchdog.py:181-183 | Without observer faults the deliveries are the stutter-free form of the readings |
| `Watchdog.HeartbeatDeliversAll` | src/convilyn_edge/runtime/watchdog.py:226-235 | Without transitions-only every reading the observer takes is delivered |
| `Payload.LineDecodes` | src/convilyn_edge/bundle/payload.py:185 | A line of the hashed text determines kind, key and hash |
| `Payload.MaterialDecodes` | src/convilyn_edge/bundle/payload.py:184-187 | The hashed text determines the ordered list of kinds, keys and hashes |
| `Payload.MaterialExact` | src/convilyn_edge/bundle/payload.py:184-187 | The hashed text has one line for each artifact, in order, with its kind, key and hash between tabs, an absent hash counting as empty |
| `Payload.FingerprintIdentifies` | src/convilyn_edge/bundle/payload.py:172-188 | With an injective digest two payloads share a fingerprint if and only if those lists agree, whatever their URLs and sizes |
| `Payload.TabsCollide` | src/convilyn_edge/bundle/payload.py:184-187 | Wherever a key holds a tab, moving what follows it in front of the hash gives another list with the same hashed text |
| `Staging.NamesDistinct` | src/convilyn_edge/bundle/staging.py:47-55 | Staging names are distinct for distinct indices, of any size and whatever the kinds |
| `Staging.NameIsSafe` | src/convilyn_edge/bundle/staging.py:41-55 | A name holds only letters, digits, underscores, dashes and dots, whatever the kind |
| `Staging.NameExact` | src/convilyn_edge/bundle/staging.py:47-55 | A kind made of plain characters is in the name as it is, after the index in at least four digits |
| `Staging.SlugOfRun` | src/convilyn_edge/bundle/staging.py:41-54 | A run of unsafe characters between plain ones becomes one underscore, and the whole is cut at 32 characters; a kind without a plain character is called an artifact |
| `Staging.BoundedSink.Write` | src/convilyn_edge/bundle/staging.py:88-92 | A write past the ceiling raises before any byte reaches the file; the file never exceeds it |
| `Staging.Stream` | src/convilyn_edge/bundle/fetch.py:188-214 | The chunk loop leaves the file and the byte count of a copy under both ceilings, whichever turn fails |
| `Staging.CopyExact` | src/convilyn_edge/bundle/fetch.py:188-214 | A fetch succeeds if and only if the whole body arrives and fits both ceilings, and then the file is the body and the count its length; the file never exceeds a ceiling, whatever happens |
| `Staging.FitsExact` | src/convilyn_edge/bundle/staging.py:139-170 | An artifact is staged if and only if its whole body arrives within the fetcher's ceiling and within the one given for artifacts or, failing that, the size it is advertised with; its file is within them at all times |
| `Staging.StageBundle` | src/convilyn_edge/bundle/staging.py:127-176 | The staging loop computes the files left behind and the staged list, or none if it raised |
| `Staging.StageExact` | src/convilyn_edge/bundle/staging.py:146-152 | Staging stops at the first artifact that does not arrive whole, removes its file, and leaves exactly the complete files before it |
| `Staging.CompleteAt` | src/convilyn_edge/bundle/staging.py:50-52 | No later artifact overwrites an earlier one's file |
| `Staging.EveryByteAccounted` | src/convilyn_edge/bundle/staging.py:156-176 | A run returns if and only if every artifact arrives; up to the first that does not, each file is its own artifact's body and within the ceilings; that one's file is gone; no other file changes, not even one already there under a later artifact's name |
| `Install.VerifyEachExact` | src/convilyn_edge/bundle/verify.py:227-239 | Verification is all or nothing: a list passes if and only if each artifact does, with its own status in its place; otherwise the error is that of the first artifact that does not |
| `Install.NoSilentDowngrade` | src/convilyn_edge/bundle/verify.py:80-95 | A bundle passes if and only if it has a workflow spec and no artifact with a stripped digest where one is required, or a malformed, unreadable or unmet one where it is over the fetched bytes |
| `Install.PinExact` | src/convilyn_edge/bundle/verify.py:186-192 | Whitespace around a pin and the case of its letters do not count; it is well formed if and only if what is left is `sha256:` and 64 hexadecimal digits |
| `Install.NoHashExact` | src/convilyn_edge/bundle/verify.py:214-220 | A hash that is absent, empty or blank is no hash |
| `Install.RefusalExact` | src/convilyn_edge/bundle/install.py:184-192 | An artifact is refused up front if and only if its kind is none of the five, or it is a role or tool asset whose key does not have eight segments |
| `Install.PassedIsPinned` | src/convilyn_edge/bundle/verify.py:227-248 | A bundle that passes has a workflow spec; exactly its artifacts with a digest over fetched bytes are marked verified, and all of these hash to their pins, which is what the installer relies on |
| `Install.DeviceStore.Land` | src/convilyn_edge/bundle/install.py:168-210 | One landing: the whole new store and the action or error |
| `Install.DeviceStore.InstallBundle` | src/convilyn_edge/bundle/install.py:213-245 | The landings in order, up to the first error |
| `Install.InstallOneLands` | src/convilyn_edge/bundle/install.py:168-210 | A landing fails only when refused up front, reports `installed` exactly when the store changes, and touches no path but its own |
| `Install.InstallLands` | src/convilyn_edge/bundle/install.py:213-240 | After a run, each path holds what the landings before the first refusal put there, and there is one action for each of them |
| `Install.InstallConverges` | src/convilyn_edge/bundle/install.py:226-229 | A run stopped after any number of artifacts and then repeated in full from the same bytes ends like one clean run, even with repeated keys |
| `Install.InstallTwice` | src/convilyn_edge/bundle/install.py:217-220 | A further install changes nothing |
| `Install.PinsHold` | src/convilyn_edge/bundle/install.py:168-182 | After a complete run the stored bytes of a verified artifact hash to the pin of the last verified artifact for its path: its own, unless a later one shares its key |
| `Bundle.FoundIsFetched` | src/convilyn_edge/bundle/staging.py:160-171 | What verification reads of a staged payload is, artifact by artifact, the whole body of its own response |
| `Bundle.StoredIsFetched` | src/convilyn_edge/bundle/install.py:213-240 | When a payload stages, passes and installs, the store holds, for every artifact with a digest over its bytes, the whole body fetched for the last such artifact with its store path, and it hashes to that artifact's pin |

## Left out

- Custom stages appended with `Pipeline.then`: they bypass the gate by design, so `PipelineGate.Standard` excludes them; the interpreter has no case for them.
- The text of details that quote a name uses plain quotes, without Python's escaping of quotes inside the name.
- The race in `resolve_review` is reduced to its two outcomes, an answer in time or the default on expiry; its cancellation paths and clock parsing are not modelled.
- asyncio scheduling and cancellation; `flush` is taken as exclusive of `emit`, as one driver run has it (an emit between the snapshot and the rewrite of a flush would be lost).
- Queue files are characters: a multi-byte character cut in half, on which reading raises, is not modelled; nor are symlink flags, directory modes and fsync.
- Records whose apply-once key is missing: the key function of the queue is total. In the aggregator such a key is the value None, and `Aggregator.PruneScrubs` shows that the index never meets one.
- JSON lines that are not objects, in the aggregator's store; and records whose first key does not start with a letter, for which two torn pieces can run together into a line that parses.
- `Emitter.NothingLost`: deaths in the middle of an append are in `CrashEmitter.LossIsBounded`.
- `Aggregator.WindowIsHistory`: deaths in the middle of an append are in `CrashAggregator.TornCounts`, against what the run recorded.
- ISO-8601 parsing, time zones and float windows: instants and the window are integers.
- `Aggregator.ThresholdAggregator.TakeSnapshot`: a restart before a call is a step of a whole run (`Aggregator.Live`), so the method takes readings without one.
- The threshold and window fields of a threshold state, which repeat the configuration, and the reduction of occurrences to their ids and stamps.
- Floating-point rounding of delays, and the bounds under a jitter function (`Retry.RetryExact` and `Retry.JitterApplies` hold under any).
- The driver's watchdog task, and closing and stopping the source. A guard shared between runs is covered by the contract of `Driver.RunDriver`, not by `Driver.AbortIsExact`; nor are other progress keys.
- An enqueue that raises on disk failure inside an emit: the driver swallows it, and that event is lost; `DriverEmitter.RunDriver` takes enqueues that succeed.
- The parsing of wire objects, `schema`, `guidance_from_contract`, `build_resume_answer`: tables and shapes of wire objects, without state or branching of their own.
- HTTP, TLS, redirects and URL checks of the fetcher: a fetch refused at once is a read fault on its first turn. Total deadlines are a turn that may come at any point.
- Staged files that vanish between verification and installation, and installs across filesystems: `os.replace` is an atomic update of the store.
- Digests that hash a file chunk by chunk are functions of the whole file. Lower-casing a pin touches ASCII letters only; a pin with others is never well-formed.
- `installed_assets`, `merge_installed_assets`, `log_summary` and report counters: small folds over what is already proved.
- `probe.py`, `storage/`, `simulator.py`, `cli/`, `runners/`, `spi/` and the examples: data shapes, text and I/O.
