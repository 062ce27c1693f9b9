# DRAC VMS: models and proofs

DRAC VMS is a video-surveillance system: a Central that watches a fleet of installations
(`apps/central`), a Python service that analyses streams (`services/ai-service-python`), a Go worker
that records them (`services/camera-worker-go`), and a browser for motion reviews (`scripts`).
This project models its state machines, concurrent protocols and algorithms, and proves what they
keep over whole runs and for all inputs.  `dafny verify dfyconfig.toml` checks everything.

Code that changes things step by step is modelled as classes, methods and loops, each proved against
a function of its inputs or of the old state; the theorems are about those functions, over every run
or every interleaving.  Clocks are arguments (`int` milliseconds or `real` seconds), so rounding of
floating-point time is not part of the model.  Randomness, digests, dates, URL parsing, Node's
`net.isIP`, the detector and the wording of alerts are parameters.

## Files

- `Optional`, `Basics`, `Text`, `Numerals`, `Prefixes`: missing values, minimum and maximum,
  `trim`/`strip`/`toLowerCase`/`split`/`join`, digits, masks.
- `AlertHistory`, `AlertDiff`, `AlertEntries`, `AlertConnectivity`, `AlertRuns`: Central's bounded alert history,
  its refinement of a plain difference of consecutive alert lists, what its entries record, the connectivity
  monitor that runs on top of it, and whole runs of heartbeats and checks of the monitor.
- `FrameHandoff`: the one-slot hand-off between capture and analysis, one queue operation a step.
- `RecordingSupervisor`: the recording maps, cancel functions and goroutines of the Go worker.
- `DetectorRegistry`: "the first caller loads, the others wait", for any number of threads.
- `ConfirmMotion`: the semaphore that outlives the deadline, and the capture loop.
- `LiveView`, `AdaptiveLadder`: live-view leases with lazy expiry, the cached QoS parameters, the ladder.
- `CaptureRate`, `IncidentGrouper`, `OperationsQueue`: sliding window with sustain and cooldown, one event
  per incident, remote operations with leases.
- `Releases`, `InstallerGrant`: release promotion and the installer grant that follows it.
- `MotionEvents`, `ReviewWindows`, `Downsample`: event extraction, interval merging and splitting,
  min/max downsampling.
- `TunnelRanges`, `TrustedProxy`: CIDR overlap and membership (RFC 4632 section 3.1, RFC 4291 section 2.2).
- `ShellQuote`, `SecretInput`: quoting against the reader's rules, and ffmpeg argument rewriting.

## Where the code and what is said about it differ

- The comment on `downsamplePoints` promises at most `maxPoints + 2` points. For any `maxPoints` and any
  fields, repeated ones included, that holds for all series exactly when two points for each different field
  fit into `maxPoints` (`Downsample.DocumentedBoundIff`); the bound that always holds is `SizeBound`.
- `updateAlertHistory` does not extend its index while it runs: a key that is new to the history and occurs
  twice in one list gets two entries (`AlertDiff.UniqueAfterIff`).
- Active alerts survive truncation exactly when the list is no longer than the history
  (`AlertDiff.TruncationKeepsActiveIff`); the ingestion limit of 100 alerts is what guarantees it.
- The connectivity monitor re-derives stored keys. It resolves nothing exactly when deriving any active key
  again leaves it alone (`AlertRuns.ReachedMonitorIff`), which fails for the alerts of
  `AlertConnectivity.StoredKeyIsSettledIff`. Ingestion delivers such alerts: one with no key and a code of
  blanks only, whose trimmed message has 121 characters and a blank as the 120th
  (`AlertConnectivity.GenericKeyIsLost`).
- A goroutine that is handed another camera's record leaves if it finds that other camera inactive or disabled,
  while its own camera stays registered. A refresh is harmless, whatever follows, exactly when the record is the
  goroutine's own or the goroutine is cancelled already (`RecordingSupervisor.FetchIsSafeIff`); the maps agree
  and no camera has two goroutines in any case.
- A candidate that ends before it starts overlaps a review window of the interval it went into exactly when
  one window holds both of its ends (`ReviewWindows.SeenIff`). For given spans, the windows keep all engines,
  whichever candidates bring them, exactly when every candidate overlaps one
  (`ReviewWindows.EnginesAlwaysKeptIff`).
- Looking at the live sessions drops expired leases without refreshing the QoS mode, so the mode in force may
  be that of a lease that is gone (`LiveView.LookLeavesStaleMode`). It is that of the live leases exactly when
  the looks since the last refreshing call left a lease that asks for it (`LiveView.ModeFollowsLeasesIff`); from
  the first refreshing call on, the parameters are those of the mode in force.
- Option values stand unquoted in the concat document: they are read back exactly when they hold no blank, no
  quote and no backslash before the end (`SecretInput.ValueReadsBackIff`).
- `finish` looks at no clock: a late result that no sweep preceded is accepted (`OperationsQueue.AcceptedIff`).
- A mark of the incident grouper restarts the incident, so its duration is the time since the last emission
  (`IncidentGrouper.DurationIsSinceEmission`).

## Model

| member | source | states |
|---|---|---|
| `AlertHistory.BuildIndex` | apps/central/src/server.js:914-926 | the loop over the stored entries yields the map in which the last entry of a key wins and a canonical key never displaces a real one |
| `AlertHistory.AbsorbReports` | apps/central/src/server.js:927-963 | the loop over one alert list refreshes or appends entries and collects the announcements, as the fold that the theorems are about |
| `AlertHistory.ResolveMissing` | apps/central/src/server.js:965-971 | every active entry whose key is gone is resolved and announced once, in order; all others are untouched |
| `AlertHistory.UpdateAlertHistory` | apps/central/src/server.js:911-978 | the whole update: new history, announced and resolved alerts |
| `AlertDiff.IndexExact` | apps/central/src/server.js:914-926 | without aliases, the index knows exactly the stored keys and points each one at its own entry |
| `AlertDiff.AbsorbFrames` | apps/central/src/server.js:927-963 | even with repeated keys in a list, entries keep their keys, entries of no incoming alert keep everything, and only incoming keys are appended |
| `AlertDiff.AbsorbTracks` | apps/central/src/server.js:927-963 | after one list, in which alerts may lack a code, every incoming alert has exactly one active entry at its level, and the announcements are those that a comparison with the previous list calls new or worse |
| `AlertDiff.UniqueAfterIff` | apps/central/src/server.js:927-963 | one problem keeps one entry if and only if no key unknown to the history is repeated within the list |
| `AlertDiff.ResolvedExact` | apps/central/src/server.js:965-971 | for any list, exactly the active keys that are gone are resolved |
| `AlertDiff.SortIsStable` | apps/central/src/server.js:973-975 | sorting by recency puts the newest first and keeps the order of entries last seen at the same time |
| `AlertDiff.TruncationKeepsActiveIff` | apps/central/src/server.js:973-977 | sorting by recency and cutting keeps every active entry if and only if the list fits into the history |
| `AlertDiff.HeartbeatRefinesDiff` | apps/central/src/server.js:911-978 | one heartbeat notifies exactly the plain difference from the previous list, where worse means from another level to "critical", and leaves a history that is again in step with its own list |
| `AlertDiff.RunRefinesDiff` | apps/central/src/server.js:911-978 | over any run with an advancing clock, distinct keys and no aliases, the truncated history notifies what a comparison of consecutive lists would |
| `AlertDiff.EscalationIff` | apps/central/src/server.js:856-954 | a known problem is announced again if and only if it is reported as "critical" and was active at another level; an unknown one always, at its level |
| `AlertEntries.HeartbeatFollows` | apps/central/src/server.js:927-971 | every entry that a heartbeat leaves continues the entry of its key by the report, starts with the report, or is the old entry, resolved now if it was active |
| `AlertEntries.OldKeyIsMigrated` | apps/central/src/server.js:914-963 | an entry under an older key is taken over by the alert whose key is its canonical one, and announced only if it was resolved or becomes critical |
| `AlertEntries.NoticesSayEntries` | apps/central/src/server.js:936-971 | an announcement says what the entry says after the heartbeat, a resolution what the entry said before it |
| `AlertEntries.EntriesAreRecords` | apps/central/src/server.js:911-978 | over any run every entry is the record of a stretch of lists: first and last time, how many lists reported it, what the last one said, and at which list it was missing |
| `AlertConnectivity.StoredKeyIsSettledIff` | apps/central/src/server.js:847-854 | deriving the key of any alert a second time, from the key stored for it, changes nothing if and only if no cut left a blank at its end and no code longer than a key was used as one |
| `AlertConnectivity.StoredKeyIsBlankIff` | apps/central/src/server.js:847-854 | the stored key is blank if and only if the alert has no key and its code consists of blanks |
| `AlertConnectivity.GenericKeyIsLost` | apps/central/src/alertas.js:388-394 | the failing family that ingestion delivers: no key, no code, a blank where the message is cut |
| `AlertConnectivity.AlertKeyKeying` | apps/central/src/server.js:847-854 | deriving a key never lengthens it, and lands on a fixed point unless it shortens it |
| `AlertConnectivity.OfflineIsSettled` | apps/central/src/server.js:985-1013 | the monitor's own alert is critical, and its key is a nonempty fixed point |
| `AlertConnectivity.ImageCoversOnlyFixpoints` | apps/central/src/server.js:985-1013 | a key derivation covers a finite set of keys by that set itself only if it moves none of them |
| `AlertConnectivity.MonitorResolvesNoneIff` | apps/central/src/server.js:985-1013 | the monitor resolves nothing if and only if deriving any active key again leaves it alone |
| `AlertConnectivity.MonitorFeedsBack` | apps/central/src/server.js:985-1013 | with the heartbeat overdue and keys that stay apart when derived again, it announces its own alert and exactly the keys that resurface, new or worse, under a derived name; it resolves the keys that are not derived by any, and leaves a sound history in step with the derived list |
| `AlertConnectivity.MonitorAddsOneResolvesNone` | apps/central/src/server.js:985-1013 | when all keys are settled it announces its own alert and nothing else, resolves nothing, keeps every alert at its level, and leaves a sound history in step with the list it made |
| `AlertConnectivity.MonitorActsIff` | apps/central/src/server.js:985-1013 | it acts if and only if the last heartbeat is older than the threshold and its alert is not already active, whatever the other keys are |
| `AlertRuns.RunFollowsLedger` | apps/central/src/server.js:985-1030 | over any run of heartbeats and checks with an advancing clock and lists without repeated keys or aliases (those that an acting check derives included): each heartbeat notifies the difference from the list before it, each acting check announces the silence and the keys that resurface under a derived name, and the active entries are always those of the list, which an acting check derives again |
| `AlertRuns.SettledCheckAddsOne` | apps/central/src/server.js:985-1030 | if all keys of the list are settled, such a check announces the silence only and just adds it to the list |
| `AlertRuns.CentralFollowsLedger` | apps/central/src/server.js:847-1030 | the same with the key derivation of the source, from an empty history on |
| `AlertRuns.ReachedMonitorIff` | apps/central/src/server.js:985-1013 | on every history that such a run reaches, also through checks that derived keys, an overdue check resolves nothing if and only if deriving any key of the list again leaves it alone |
| `AlertRuns.ReachedMonitorActsIff` | apps/central/src/server.js:985-1013 | on every such history a check acts if and only if the heartbeat is overdue and the silence is not in the list |
| `AlertRuns.SettledAlerts` | apps/central/src/server.js:847-854 | a list of alerts that `StoredKeyIsSettledIff` calls settled has settled keys only |
| `AlertRuns.NamedAlerts` | apps/central/src/server.js:847-854 | if no alert of a list lacks a key while its code is nothing but blanks, no key of the list is blank, as the run theorems ask |
| `FrameHandoff.EveryInterleaving` | services/ai-service-python/stream_processor.py:972-984 | the invariant of the hand-off holds after every schedule of the two threads and of stop() |
| `FrameHandoff.EachFrameExactlyOnce` | services/ai-service-python/stream_processor.py:972-984 | each captured frame is consumed, evicted, refused in the race, queued or in hand: exactly one of them, once |
| `FrameHandoff.CountersBalance` | services/ai-service-python/stream_processor.py:972-984 | enqueued = dropped + consumed + queued between frames, and the refused frames are the ones the counters never saw |
| `FrameHandoff.NeverStuck` | services/ai-service-python/stream_processor.py:1041-1053 | the capture thread never blocks, and a process thread blocked on an empty queue is released by the next capture step |
| `FrameHandoff.LatestInOrder` | services/ai-service-python/stream_processor.py:972-984 | frames are consumed in capture order, each the newest or the one before the newest |
| `FrameHandoff.ReadFrameIsQueued` | services/ai-service-python/stream_processor.py:972-984 | an uninterrupted round of the capture thread puts the new frame into the slot, in four steps or, evicting the old one, in six, and counts it |
| `FrameHandoff.FoundFrameIsTaken` | services/ai-service-python/stream_processor.py:1041-1053 | a frame that the process thread finds is consumed by its next two steps, if capture does nothing between |
| `FrameHandoff.EmptySlotIsPolled` | services/ai-service-python/stream_processor.py:1041-1053 | without a frame it looks again, and it ends once it is stopped |
| `FrameHandoff.StopEndsBoth` | services/ai-service-python/stream_processor.py:972-984 | after stop(), six steps of the capture thread, however interleaved, and then three of the process thread end both |
| `FrameHandoff.StartsRunning` | services/ai-service-python/stream_processor.py:972-984 | and neither ends before |
| `RecordingSupervisor.StepInv` | services/camera-worker-go/main.go:228-260 | every tick, command, goroutine step, self-stop and panic keeps the invariant of maps, cancel functions and goroutines; a refresh with the own record also keeps every active camera manned |
| `RecordingSupervisor.RunInv` | services/camera-worker-go/recorder.go:24-64 | and so does every interleaving of them |
| `RecordingSupervisor.MapsAlwaysAgree` | services/camera-worker-go/main.go:305-319 | in every run the keys of the active and cancel maps agree, and those of the segment map are a subset |
| `RecordingSupervisor.NeverTwoGoroutines` | services/camera-worker-go/recorder.go:24-64 | in every run a live uncancelled goroutine is the registered one of its camera, which is active; so no camera has two |
| `RecordingSupervisor.OneGoroutinePerActiveCamera` | services/camera-worker-go/recorder.go:24-64 | with own records an active camera has exactly one live uncancelled goroutine, the registered one; any other camera has none |
| `RecordingSupervisor.FetchIsSafeIff` | services/camera-worker-go/recorder.go:40-52 | after a refresh every active camera keeps its goroutine, whatever follows, if and only if the record is that of the goroutine's own camera or the goroutine is cancelled |
| `RecordingSupervisor.ForeignRecordOrphansCamera` | services/camera-worker-go/recorder.go:40-52 | the smallest failing run: the record of a camera that is not active makes the goroutine leave while its own camera stays registered |
| `RecordingSupervisor.PassLeavesRecordable` | services/camera-worker-go/main.go:228-260 | one uninterrupted pass leaves exactly the recordable cameras active |
| `RecordingSupervisor.WantedExactly` | services/camera-worker-go/main.go:115-123 | for any list, repeated ids included, those are the cameras whose last occurrence in the list is enabled and recordable |
| `RecordingSupervisor.PassKeepsRunning` | services/camera-worker-go/main.go:228-260 | a recording that is wanted throughout keeps its goroutine |
| `RecordingSupervisor.StartCommandRecords` | services/camera-worker-go/main.go:447-469 | a start command leaves an enabled camera active with its own uncancelled goroutine, the one it had or a new one, remembers a positive length, and touches no other camera; for a disabled camera it does nothing |
| `RecordingSupervisor.StartCommandMans` | services/camera-worker-go/main.go:447-469 | so, until shutdown, that camera is being recorded |
| `RecordingSupervisor.StopCommandStops` | services/camera-worker-go/main.go:470-476 | a stop command removes the camera from the three maps, cancels its goroutine, and touches no other camera |
| `RecordingSupervisor.SegmentsAsAsked` | services/camera-worker-go/recorder.go:82-88 | the length asked for is that of the segments until the camera is stopped, and five minutes otherwise |
| `RecordingSupervisor.TurnOfGoroutine` | services/camera-worker-go/recorder.go:37-64 | with the record it fetched, a goroutine leaves if that camera is not active, stops it and leaves if it is disabled, and records otherwise |
| `RecordingSupervisor.RecordingGoesOn` | services/camera-worker-go/recorder.go:24-64 | it goes on after each segment, and leaves if and only if its context is cancelled |
| `RecordingSupervisor.PanicStopsOwnCamera` | services/camera-worker-go/recorder.go:25-32 | a panic stops the own camera and nothing else |
| `RecordingSupervisor.StopAllStopsAll` | services/camera-worker-go/main.go:268-278 | the last pass leaves nothing registered and every goroutine cancelled |
| `RecordingSupervisor.Supervisor.StartRecordingLocked` | services/camera-worker-go/main.go:305-310 | registers a goroutine and its cancel function |
| `RecordingSupervisor.Supervisor.StopRecordingLocked` | services/camera-worker-go/main.go:312-319 | cancels and forgets one camera in all three maps |
| `RecordingSupervisor.Supervisor.StopMissing` | services/camera-worker-go/main.go:229-240 | deleting while ranging, in any order, stops exactly the cameras that are gone |
| `RecordingSupervisor.Supervisor.Reconcile` | services/camera-worker-go/main.go:228-260 | one pass is the function of the theorems, and leaves the wanted cameras active |
| `RecordingSupervisor.Supervisor.HandleCommand` | services/camera-worker-go/main.go:442-479 | a command without camera, with an unknown action, or whose camera cannot be fetched does nothing; the case of the action does not matter |
| `RecordingSupervisor.Supervisor.HandleStart` | services/camera-worker-go/main.go:447-469 | the start command |
| `RecordingSupervisor.Supervisor.HandleStop` | services/camera-worker-go/main.go:470-476 | the stop command |
| `DetectorRegistry.NextInv` | services/ai-service-python/model_registry.py:22-72 | every atomic step of any thread keeps the invariant |
| `DetectorRegistry.RunInv` | services/ai-service-python/model_registry.py:22-72 | and so does every schedule |
| `DetectorRegistry.OneLoaderAtATime` | services/ai-service-python/model_registry.py:36-72 | at most one thread loads a key at any time, and none loads a cached key |
| `DetectorRegistry.CacheIsStableOverRuns` | services/ai-service-python/model_registry.py:36-72 | a cached detector is never replaced |
| `DetectorRegistry.NoLoadAfterSuccess` | services/ai-service-python/model_registry.py:36-72 | once a load has succeeded, no thread ever builds that key again |
| `DetectorRegistry.SameDetectorForever` | services/ai-service-python/model_registry.py:22-72 | any two successful returns for a key yield the same detector, whatever loads failed before |
| `DetectorRegistry.RetryAfterFailure` | services/ai-service-python/model_registry.py:36-72 | a failed load leaves nothing behind: the next caller that enters the locked section loads again |
| `DetectorRegistry.NoLostWakeUp` | services/ai-service-python/model_registry.py:36-72 | when a thread waits, its event is set, or some thread still loads the key, or has removed that event and sets it next |
| `DetectorRegistry.LoadersAreAnnounced` | services/ai-service-python/model_registry.py:36-50 | in every reachable state the key of a loading thread is announced with an event of its own, as the next two theorems ask |
| `DetectorRegistry.LoaderDelivers` | services/ai-service-python/model_registry.py:55-72 | a loader that succeeds stores its detector, releases the waiters and returns it |
| `DetectorRegistry.LoaderGivesUp` | services/ai-service-python/model_registry.py:55-72 | one that fails stores nothing, releases the waiters too, and raises |
| `DetectorRegistry.WaiterIsAnswered` | services/ai-service-python/model_registry.py:47-53 | a released waiter gets what is cached by then, or raises |
| `DetectorRegistry.CallOfCachedKey` | services/ai-service-python/model_registry.py:29-33 | a call for a cached key returns it at once, any other goes on to the locked section |
| `DetectorRegistry.LockedSectionDecides` | services/ai-service-python/model_registry.py:36-50 | there a cached key is returned, an announced one joined, and any other announced with a new event |
| `DetectorRegistry.FirstCallLoads` | services/ai-service-python/model_registry.py:22-72 | the first call of all loads the detector, returns it and leaves it cached |
| `ConfirmMotion.CaptureAndDetect` | services/ai-service-python/confirm_motion.py:93-146 | the call, exceptions included, returns the verdict on its scene |
| `ConfirmMotion.VerdictIsAboutLastFrame` | services/ai-service-python/confirm_motion.py:93-146 | that verdict is True or False if and only if nothing failed and the last frame read was judged to show, or not to show, an object with one of the labels asked for, or any object when none is asked for |
| `ConfirmMotion.OpenVerdicts` | services/ai-service-python/confirm_motion.py:93-146 | an open verdict has no labels and names the first failure, the missing frame or the failed detector |
| `ConfirmMotion.LabelsAreAll` | services/ai-service-python/confirm_motion.py:127-139 | a definite verdict lists the labels of all objects of the last frame |
| `ConfirmMotion.ReadFrames` | services/ai-service-python/confirm_motion.py:115-125 | the loop of at most five reads keeps the last frame of those made in time, or gives up at the first failure |
| `ConfirmMotion.LastGotIsLast` | services/ai-service-python/confirm_motion.py:115-125 | that frame is the one after which no further frame was read |
| `ConfirmMotion.RelevantLabels` | services/ai-service-python/confirm_motion.py:129-131 | the filtered list is empty exactly when no label is accepted |
| `ConfirmMotion.RunInv` | services/ai-service-python/confirm_motion.py:56-76 | permits and holders add up to the size of the semaphore after every run |
| `ConfirmMotion.ConcurrencyIsBounded` | services/ai-service-python/confirm_motion.py:56-90 | never more calls run than max(1, concurrency), also past deadlines, and all permits come back |
| `ConfirmMotion.WaitsOnlyForOthers` | services/ai-service-python/confirm_motion.py:56-90 | a waiting request can start if and only if fewer than max(1, concurrency) calls are in progress |
| `ConfirmMotion.NeverStuck` | services/ai-service-python/confirm_motion.py:56-90 | while a request is unanswered some step is possible |
| `ConfirmMotion.EveryRequestIsAnswered` | services/ai-service-python/confirm_motion.py:56-90 | every run of n requests has at most 4n steps, and one that cannot go on has answered them all and has all permits back |
| `ConfirmMotion.AnswersAreExact` | services/ai-service-python/confirm_motion.py:66-90 | every answer is the outcome of the request's own call, or "do not know" if its deadline passed |
| `ConfirmMotion.DefiniteOnlyIfSeen` | services/ai-service-python/confirm_motion.py:13-15 | in every interleaving, an answer is True or False if and only if the request's own call returned before the deadline and judged its last frame so; nothing else suppresses a recording |
| `MotionEvents.RawEvents` | scripts/build-motion-review.py:26-46 | the loop yields a list that the declarative specification admits |
| `MotionEvents.RawIsUnique` | scripts/build-motion-review.py:26-46 | the specification admits only one list |
| `MotionEvents.MergeEvents` | scripts/build-motion-review.py:47-54 | the joining loop |
| `MotionEvents.EventsFromActive` | scripts/build-motion-review.py:26-54 | the whole function |
| `MotionEvents.MergeExact` | scripts/build-motion-review.py:47-54 | a joined event runs from the first to the last raw event of a maximal chain with gaps of at most ten frames |
| `MotionEvents.EveryPairIsReported` | scripts/build-motion-review.py:26-54 | every adjacent active pair lies in a joined event |
| `MotionEvents.JoinedAreFar` | scripts/build-motion-review.py:47-54 | consecutive joined events are more than ten frames apart |
| `MotionEvents.JoinedAreEvents` | scripts/build-motion-review.py:26-54 | every joined event lies in the stream and starts with an active pair |
| `ReviewWindows.SortCandidates` | scripts/build-motion-review.py:138-140 | sorting the candidate objects permutes them into order |
| `ReviewWindows.JoinLast` | scripts/build-motion-review.py:141-144 | the last merged object absorbs a candidate in place and nothing else changes |
| `ReviewWindows.MergeCandidates` | scripts/build-motion-review.py:138-154 | merging works only on copies: the source candidates and their engine sets are as before |
| `ReviewWindows.SplitInterval` | scripts/build-motion-review.py:156-178 | the window loop yields the windows defined by arithmetic |
| `ReviewWindows.Review` | scripts/build-motion-review.py:138-178 | sort, merge and split together, with no source object changed |
| `ReviewWindows.MergedAreSeparated` | scripts/build-motion-review.py:138-154 | merged intervals are in order and more than the gap apart, whatever the candidates; none is empty if no candidate is |
| `ReviewWindows.MergeCovers` | scripts/build-motion-review.py:138-154 | every candidate, inverted ones included, lies in the merged interval it went into, which lists its engines and its origin |
| `ReviewWindows.MergeInventsNothing` | scripts/build-motion-review.py:138-154 | no merged interval lists an engine that no candidate that went into it brought |
| `ReviewWindows.MergedSemanticIff` | scripts/build-motion-review.py:136-157 | a merged interval is semantic if and only if a candidate that went into it is |
| `ReviewWindows.WindowsPartition` | scripts/build-motion-review.py:156-178 | each frame of an interval lies in exactly one window, none longer than sixty frames |
| `ReviewWindows.WindowTells` | scripts/build-motion-review.py:159-180 | a window lists an engine, and is semantic, if and only if a candidate overlapping it brings the engine, or is |
| `ReviewWindows.ReviewTiles` | scripts/build-motion-review.py:136-180 | all windows together follow each other without overlap and hold exactly the frames of the merged intervals |
| `ReviewWindows.CandidatesAreReviewed` | scripts/build-motion-review.py:136-180 | so every frame of a candidate is reviewed |
| `ReviewWindows.SeenIff` | scripts/build-motion-review.py:156-169 | a candidate overlaps some window of its interval if and only if it is not inverted or one window holds both of its ends |
| `ReviewWindows.WindowsKeepEnginesIff` | scripts/build-motion-review.py:138-178 | windows never list an engine that is not their interval's; they list all of them if and only if each engine comes with a candidate that overlaps a window |
| `ReviewWindows.EnginesAlwaysKeptIff` | scripts/build-motion-review.py:138-178 | for given spans all engines are kept under every assignment of engines if and only if every candidate overlaps a window of its interval |
| `ReviewWindows.WindowsKeepEngines` | scripts/build-motion-review.py:156-178 | so nothing is lost when no candidate ends before it starts |
| `ReviewWindows.LoneCandidateKeepsEnginesIff` | scripts/build-motion-review.py:138-178 | the smallest failing input: a candidate on its own keeps its engines if and only if its frames are in order or it has none |
| `AdaptiveLadder.LevelsAreRungs` | services/ai-service-python/stream_processor.py:359-387 | advancing and relaxing move one level, capped at both ends |
| `AdaptiveLadder.ReachableIffLevel` | services/ai-service-python/stream_processor.py:359-387 | the reachable states are in bijection with the levels 0..N |
| `AdaptiveLadder.MovesUndoEachOther` | services/ai-service-python/stream_processor.py:359-387 | away from the ends, advancing and relaxing undo each other |
| `AdaptiveLadder.ClampsAreIdentities` | services/ai-service-python/stream_processor.py:740-754 | the index clamps never clamp a reachable state |
| `AdaptiveLadder.HigherLevelNeverRaises` | services/ai-service-python/stream_processor.py:719-767 | a higher level never raises input size or resolution, nor the frame rate for non-increasing factors |
| `AdaptiveLadder.ParamsOfLevel` | services/ai-service-python/stream_processor.py:719-767 | the parameters of every level: which factor, size and scale apply, the least values, and the rounding |
| `AdaptiveLadder.EvaluateStep` | services/ai-service-python/stream_processor.py:396-438 | one evaluation moves only the mode in force, by at most one level, and only outside the cooldown |
| `AdaptiveLadder.EvaluationIff` | services/ai-service-python/stream_processor.py:396-438 | once a window has passed, the level goes up by one if and only if the drops per frame since the last evaluation, or the load, are at the upper limit or above and the cooldown is over; otherwise down by one if and only if neither is above its lower limit and that cooldown is over; capped at both ends |
| `AdaptiveLadder.CooldownsHold` | services/ai-service-python/stream_processor.py:396-438 | over any run of evaluations every change of level keeps its cooldown from the one before |
| `LiveView.LeaseMapIsLog` | services/ai-service-python/stream_processor.py:690-698 | for any clock, a session is in the map if and only if its last operation is a touch whose end no clock reading since has reached |
| `LiveView.LiveIffLastTouchInFuture` | services/ai-service-python/stream_processor.py:812-864 | with a monotone clock, a session is live if and only if its last operation is a touch whose end lies in the future |
| `LiveView.TouchLasts` | services/ai-service-python/stream_processor.py:812-840 | a touch leases for the seconds asked for, but at least 5 and at most 120, and keeps all other live leases |
| `LiveView.SelectedIff` | services/ai-service-python/stream_processor.py:253-255 | a view is the selected one if and only if its text, without white space around and in lower case, is "selected" |
| `LiveView.ModeOfLeases` | services/ai-service-python/stream_processor.py:700-717 | the mode is the selected one if a live lease asks for it, the basic one without leases or without live QoS, and that of the grid otherwise |
| `LiveView.CacheEqualsRecomputation` | services/ai-service-python/stream_processor.py:769-799 | after a refreshing call the mode is that of the live leases, and the cached QoS parameters equal a fresh computation |
| `LiveView.ParamsFollowMode` | services/ai-service-python/stream_processor.py:719-799 | after any run with a refreshing call the parameters equal a fresh computation for the mode in force |
| `LiveView.ModeFollowsLeasesIff` | services/ai-service-python/stream_processor.py:801-810 | after any run the mode in force is that of the live leases if and only if the looks since the last refreshing call left a lease that asks for it |
| `LiveView.LookLeavesStaleMode` | services/ai-service-python/stream_processor.py:866-869 | a concrete run in which a look drops the lease whose mode stays in force |
| `LiveView.RunSessions` | services/ai-service-python/stream_processor.py:801-864 | the sessions of a run are those of its lease operations |
| `LiveView.LadderHoldsOverRuns` | services/ai-service-python/stream_processor.py:396-438 | over any run of calls every mode stays on its ladder, every change of level keeps its cooldown from the one before, and nothing but an evaluation moves a level |
| `LiveView.LadderHoldsFromStart` | services/ai-service-python/stream_processor.py:795-799 | and that holds for every run from the initial state on |
| `LiveView.OnlyRefreshEvaluates` | services/ai-service-python/stream_processor.py:795-799 | every refresh evaluates the mode in force, if the ladder is in use, and no other call moves a level or a counter |
| `LiveView.ParamsInForce` | services/ai-service-python/stream_processor.py:719-799 | over any run with a refreshing call the parameters are those configured for the mode in force, taken down the ladder by the level of that mode, or undiminished without the ladder, or the basic ones without advanced analysis |
| `LiveView.StreamQos.CleanupLocked` | services/ai-service-python/stream_processor.py:690-698 | drops exactly the expired leases and sets the wake-up time to the maximum end |
| `LiveView.StreamQos.RefreshLocked` | services/ai-service-python/stream_processor.py:769-793 | the cached parameters follow the live modes |
| `LiveView.StreamQos.TouchLiveViewSession` | services/ai-service-python/stream_processor.py:812-840 | a blank id changes nothing; otherwise the lease is renewed or started |
| `LiveView.StreamQos.StopLiveViewSession` | services/ai-service-python/stream_processor.py:842-864 | a blank id changes nothing; otherwise the lease is gone |
| `LiveView.StreamQos.HasActiveLiveViewSession` | services/ai-service-python/stream_processor.py:801-805 | true exactly when some lease ends in the future |
| `LiveView.StreamQos.RefreshQosMode` | services/ai-service-python/stream_processor.py:795-799 | the periodic refresh |
| `CaptureRate.CaptureRateGuard.ObserveFrame` | services/ai-service-python/capture_rate_guard.py:116-164 | one observation: new state and whether the anomaly is reported |
| `CaptureRate.ExpectedIsLastPlausible` | services/ai-service-python/capture_rate_guard.py:98-103 | the expected rate of a run is the last plausible declaration, and the initial one as long as there is none |
| `CaptureRate.ThresholdsAreBounded` | services/ai-service-python/capture_rate_guard.py:94-103 | so every threshold of a run lies above the margin and at most the largest plausible rate, or the initial one, above it |
| `CaptureRate.DequeIsWindow` | services/ai-service-python/capture_rate_guard.py:127-130 | the deque is the longest suffix of all observations that lies in the window and fits into it |
| `CaptureRate.RateIsThatOfTheWindow` | services/ai-service-python/capture_rate_guard.py:92-157 | the rate of a frame is the number of later frames in that window over its span, none without enough of them, and the threshold is the expected rate plus the margin |
| `CaptureRate.ReportsAreCounted` | services/ai-service-python/capture_rate_guard.py:116-157 | the counter of reports is their number in the run |
| `CaptureRate.FieldsExact` | services/ai-service-python/capture_rate_guard.py:116-164 | the two time fields are functions of the whole history of observations |
| `CaptureRate.ReportsIff` | services/ai-service-python/capture_rate_guard.py:116-164 | a frame reports if and only if all observations over at least the sustain time were at or above their thresholds and every earlier report is a cooldown old |
| `CaptureRate.ReportsAreSpaced` | services/ai-service-python/capture_rate_guard.py:116-164 | any two reports of a run are at least one cooldown apart |
| `OperationsQueue.Installation.ExpireTimedOut` | apps/central/src/operations.js:62-74 | the sweep over the list |
| `OperationsQueue.Installation.EnqueueOperation` | apps/central/src/operations.js:76-98 | enqueue, with its refusals |
| `OperationsQueue.Installation.ClaimOperation` | apps/central/src/operations.js:100-110 | claim, after a sweep |
| `OperationsQueue.Installation.FinishOperation` | apps/central/src/operations.js:112-124 | finish, with its refusals |
| `OperationsQueue.RunInv` | apps/central/src/operations.js:58-124 | the invariant of the list and of the logs of claims and results |
| `OperationsQueue.OneOpenAndLast` | apps/central/src/operations.js:76-98 | at most 40 operations, at most one open and it is the last, a lease token exactly while it runs |
| `OperationsQueue.ClaimedAndFinishedOnce` | apps/central/src/operations.js:100-124 | an operation is claimed at most once and finished at most once, with the token of its claim |
| `OperationsQueue.OpenIsKeptOverIsFinal` | apps/central/src/operations.js:58-124 | no event evicts the open operation, and an operation that is over never changes |
| `OperationsQueue.TimedOutOnlyAfterDeadline` | apps/central/src/operations.js:62-74 | TIMED_OUT is only set at or after the deadline |
| `OperationsQueue.AcceptedIff` | apps/central/src/operations.js:112-124 | a result is accepted if and only if it is a final status from the holder of the running operation's token |
| `OperationsQueue.FinishStores` | apps/central/src/operations.js:111-124 | an accepted result is stored as reported: status, time, the first 4000 and 1000 characters; nothing else changes |
| `OperationsQueue.RefusedFor` | apps/central/src/operations.js:111-116 | a refused result changes nothing, and the refusal names the first reason |
| `OperationsQueue.OverAsReported` | apps/central/src/operations.js:111-124 | over any run an operation is SUCCEEDED, or FAILED, if and only if the accepted result for its id said so |
| `OperationsQueue.EnqueuedIff` | apps/central/src/operations.js:75-98 | enqueued if and only if the action is known and no operation is open; the new one is pending and last, and pushes out the oldest of forty |
| `OperationsQueue.ClaimedIff` | apps/central/src/operations.js:100-109 | a claim hands out the pending operation if there is one, under the token and until the time of its action is over |
| `OperationsQueue.SweptIff` | apps/central/src/operations.js:62-73 | the sweep touches exactly the running operations whose deadline has come |
| `OperationsQueue.NothingOverdue` | apps/central/src/operations.js:62-109 | after a sweep, and so after a claim, no running operation of the list is past its deadline |
| `OperationsQueue.OperationGoesThrough` | apps/central/src/operations.js:75-124 | once nothing is open, a new operation with a known action is enqueued, handed out to the next claim, and over as reported by its holder |
| `Downsample.BucketExtremes` | apps/central/public/chart-utils.js:275-284 | the inner loop finds the first minimum and the first maximum of a field in a bucket, or neither |
| `Downsample.KeepBucket` | apps/central/public/chart-utils.js:266-288 | one bucket adds exactly what the specification picks |
| `Downsample.DownsamplePoints` | apps/central/public/chart-utils.js:257-290 | the result is the points at the specified indexes, in order |
| `Downsample.BucketsTile` | apps/central/public/chart-utils.js:262-268 | every index lies in exactly one bucket |
| `Downsample.EndsSurvive` | apps/central/public/chart-utils.js:265-290 | the first and the last point are shown first and last |
| `Downsample.PeaksSurvive` | apps/central/public/chart-utils.js:251-256 | the first minimum and maximum of every requested field over the whole series are shown |
| `Downsample.RangeSurvives` | apps/central/public/chart-utils.js:251-256 | so the shown range of every field is the range of the series |
| `Downsample.NearbyIsShown` | apps/central/public/chart-utils.js:257-290 | near every point with a value some point is shown: the series is cut into as many stretches as twice the fields fit into the limit, and none is skipped |
| `Downsample.ObjectsStay` | apps/central/public/chart-utils.js:258-258 | points that are no objects are dropped, all others stay in order |
| `Downsample.NamesStay` | apps/central/public/chart-utils.js:261-261 | and so do names, without the empty ones |
| `Downsample.SizeBound` | apps/central/public/chart-utils.js:257-290 | at most max(limit, twice the number of different fields) + 2 points |
| `Downsample.DocumentedBoundIff` | apps/central/public/chart-utils.js:251-256 | the promised maxPoints + 2 holds for all series if and only if twice the number of different fields is at most maxPoints, for every maxPoints and every list of fields |
| `TunnelRanges.RangeIff` | apps/central/src/faixas-de-rede.js:30-42 | a text is a range if and only if it is four numerals up to 255 of at most three digits with dots between, a slash and a numeral up to 32 of at most two, with white space only at the ends and around the slash; it denotes the network of that address |
| `TunnelRanges.CidrReads` | apps/central/src/faixas-de-rede.js:30-42 | in particular a.b.c.d/p denotes the network of that address under p, whatever its host bits |
| `TunnelRanges.RangeIsBlock` | apps/central/src/faixas-de-rede.js:30-42 | any accepted text denotes an aligned block of 2^(32-p) addresses around the address written |
| `TunnelRanges.ReaderIsSound` | apps/central/src/faixas-de-rede.js:30-42 | the reader only yields aligned blocks of 32-bit addresses, which is all that the theorems below ask of their reader |
| `Prefixes.MaskClearsHost` | apps/central/src/faixas-de-rede.js:38-41 | the bitwise mask clears the host bits and nothing else |
| `TunnelRanges.OverlapIffMeet` | apps/central/src/faixas-de-rede.js:44-51 | two ranges overlap if and only if some address lies in both |
| `TunnelRanges.OverlapIffContained` | apps/central/src/faixas-de-rede.js:43-51 | equivalently, if and only if one contains the other |
| `TunnelRanges.ReadList` | apps/central/src/faixas-de-rede.js:54-63 | the loop separates the ranges of a list from the rest |
| `TunnelRanges.ValidateTunnel` | apps/central/src/faixas-de-rede.js:71-96 | the nested loops give the verdict of the first failing check and of the first conflict |
| `TunnelRanges.AcceptedIff` | apps/central/src/faixas-de-rede.js:71-96 | accepted if and only if every part is a range, there is one, and no address of them belongs to a differently named tunnel |
| `TunnelRanges.ConflictIsReal` | apps/central/src/faixas-de-rede.js:80-93 | a conflict names one of the new ranges and a range of another tunnel with an address in common |
| `TunnelRanges.StoredListReadsBack` | apps/central/src/faixas-de-rede.js:54-63 | the stored list of an accepted tunnel, turned into text again, reads as the same list |
| `TunnelRanges.ConfigureStoresIff` | apps/central/src/faixas-de-rede.js:71-96 | a configuration stores exactly the accepted ranges and touches no other tunnel |
| `TunnelRanges.TunnelsNeverShare` | apps/central/src/faixas-de-rede.js:71-96 | over any sequence of accepted configurations no address belongs to two tunnels |
| `Text.TrimIsInner` | apps/central/src/faixas-de-rede.js:54-63 | trimming a text drops the white space at both ends and nothing else |
| `Text.StripIsInner` | services/ai-service-python/stream_processor.py:812-816 | and so does stripping, for the white space of Python |
| `TrustedProxy.Ipv4Reads` | apps/central/src/proxy-trust.js:11-15 | dotted text denotes the number whose base-256 digits it shows |
| `TrustedProxy.Ipv6Full` | apps/central/src/proxy-trust.js:17-41 | eight groups denote the number whose base-65536 digits they are |
| `TrustedProxy.Ipv6Compressed` | apps/central/src/proxy-trust.js:25-32 | "::" stands for as many zero groups as are missing |
| `TrustedProxy.Ipv6Dotted` | apps/central/src/proxy-trust.js:19-24 | after a "::", with or without groups around it, a dotted tail stands for two groups |
| `TrustedProxy.Ipv6SixDotted` | apps/central/src/proxy-trust.js:17-41 | and so it does after six plain groups |
| `TrustedProxy.TailKeepsBits` | apps/central/src/proxy-trust.js:19-24 | and those two groups are the 32 bits of the dotted number |
| `TrustedProxy.Ipv6ReadWas` | apps/central/src/proxy-trust.js:25-36 | nothing else is read: behind every accepted text are eight groups, or fewer around one "::" |
| `TrustedProxy.NormalizeReads` | apps/central/src/proxy-trust.js:5-9 | an address is read with brackets or a zone around it, a mapped IPv4 address as what it maps, in lower case, and as nothing if Node does not take it |
| `TrustedProxy.NormalizeFinds` | apps/central/src/proxy-trust.js:5-9 | and what is read is the lower case of an address that stands in the text |
| `TrustedProxy.IpValueIff` | apps/central/src/proxy-trust.js:43-49 | an address has 32 bits or 128, as Node says which it is, and the number that its text denotes |
| `TrustedProxy.OctetsAreAddress` | apps/central/src/proxy-trust.js:43-49 | so the canonical text of four octets is the address of those octets |
| `TrustedProxy.CompilesIff` | apps/central/src/proxy-trust.js:51-69 | a configuration compiles if and only if each entry is blank or an address with a prefix from none to all of its bits |
| `TrustedProxy.SameNetworkIff` | apps/central/src/proxy-trust.js:78-83 | equal networks after shifting mean equal leading bits, and mean lying in the block |
| `TrustedProxy.TrustedIff` | apps/central/src/proxy-trust.js:51-85 | an address is trusted if and only if some entry has the same family and the same leading bits |
| `TrustedProxy.HeaderCountsIff` | apps/central/src/proxy-trust.js:87-93 | the header decides if and only if the peer lies in an entry and the header is an address; otherwise it has no influence |
| `IncidentGrouper.Grouper.Decide` | services/ai-service-python/detectors/agrupamento_de_evento.py:66-90 | one detection: new state, decision and reason |
| `IncidentGrouper.Grouper.Forget` | services/ai-service-python/detectors/agrupamento_de_evento.py:97-104 | forgets one kind or all |
| `IncidentGrouper.StateIsHistory` | services/ai-service-python/detectors/agrupamento_de_evento.py:66-104 | the two dictionaries hold the times of the last detection and of the last emission of each kind |
| `IncidentGrouper.EmitsIff` | services/ai-service-python/detectors/agrupamento_de_evento.py:66-90 | emits if and only if first of its kind, after a silence longer than the limit, or a ceiling after the last emission |
| `IncidentGrouper.DurationIsSinceEmission` | services/ai-service-python/detectors/agrupamento_de_evento.py:92-95 | the reported duration is the time since the last emission |
| `IncidentGrouper.IncidentIsBounded` | services/ai-service-python/detectors/agrupamento_de_evento.py:78-90 | an unbroken incident of length d emits at most 1 + floor(d / ceiling) events, and at most one without a ceiling |
| `IncidentGrouper.KindsAreIndependent` | services/ai-service-python/detectors/agrupamento_de_evento.py:66-104 | interleaved events of other kinds change none of a kind's decisions |
| `Releases.Central.Promote` | apps/central/src/server.js:2092-2109 | the state update of a promotion |
| `Releases.AcceptedIff` | apps/central/src/releases.js:45-95 | accepted if and only if the commit and the repository are good and there is full evidence (clean installation, verified main installation, a date) or it is a rollback to a commit of the history |
| `Releases.RefusedFor` | apps/central/src/releases.js:45-80 | a refusal names the first thing that is missing |
| `Releases.RecordIsRequest` | apps/central/src/releases.js:78-95 | the record holds what was asked for, and its evidence unless it is marked as a rollback |
| `Releases.RecordedTexts` | apps/central/src/releases.js:78-95 | texts are recorded trimmed, notes cut, the digest in lower case, and empty ones as missing |
| `Releases.RecordsHoldEvidence` | apps/central/src/server.js:2092-2109 | over any run every release on record holds its full evidence or is marked as a rollback |
| `Releases.EveryCommitPassedTheGate` | apps/central/src/releases.js:45-95 | every commit that is current or in the history was accepted with full evidence at some point of the run |
| `Releases.HistoryIsExact` | apps/central/src/releases.js:140-146 | the history is the newest fifty streaks of accepted releases and starts with the current one |
| `Releases.UngatedIff` | apps/central/src/releases.js:63-76 | without evidence a request is accepted if and only if it is a rollback to one of those fifty |
| `Releases.SituationIff` | apps/central/src/releases.js:104-111 | when an installation is up to date, behind, unknown, or without a release to compare with |
| `Releases.FleetSummary` | apps/central/src/releases.js:114-121 | the counters are exact and count every installation once |
| `InstallerGrant.Installation.IssueGrant` | apps/central/src/installer-security.js:193-245 | binds or keeps the artifact and issues or keeps the token; a refusal changes nothing |
| `InstallerGrant.Installation.RefreshGrant` | apps/central/src/server.js:635-667 | when the artifact is bound again and when a new token is issued |
| `InstallerGrant.Installation.Download` | apps/central/src/server.js:2243-2288 | a download is served exactly for an active matching token, and costs one |
| `InstallerGrant.NormalCommitKeeps` | apps/central/src/installer-security.js:36-44 | reading a commit in canonical form yields that commit |
| `InstallerGrant.RefreshBindsRelease` | apps/central/src/server.js:645-661 | after a refresh with a release the bound artifact is that release's commit |
| `InstallerGrant.RefreshBindsIff` | apps/central/src/server.js:635-667 | a refresh binds what is offered, with commit and checksum of the release where it has them, exactly when it is forced to, nothing is bound or the release has moved on; it fails exactly when what it binds or keeps cannot be read |
| `InstallerGrant.RefreshIssuesIff` | apps/central/src/server.js:655-667 | a new token is issued if and only if tokens are wanted and it rebinds, is forced to, or the old one is of no use; its lifetime and number of downloads are those configured, within their bounds |
| `InstallerGrant.BoundToLastApproved` | apps/central/src/server.js:635-667 | however promotions, rollbacks and refreshes of all installations interleave, an installation is bound to what was approved at its last successful refresh |
| `InstallerGrant.EveryBoundCommitPassed` | apps/central/src/installer-security.js:82-129 | so at any time every bound commit passed the gate before that refresh, or is the environment's commit bound when no release existed |
| `InstallerGrant.CentralInstallsWhatPassed` | apps/central/src/server.js:635-667 | both for the binding and the reading of commits of the source, under any environment: an installation is bound exactly when a refresh of it succeeded, to what was approved then, which passed the gate unless no release existed |
| `InstallerGrant.TokensAreBounded` | apps/central/src/installer-security.js:228-259 | each token serves at most its one to ten downloads, all before its expiry |
| `InstallerGrant.ServedIff` | apps/central/src/installer-security.js:180-187 | a download is served if and only if its token is the newest, unexpired and not used up |
| `ShellQuote.QuoteReadsBack` | apps/central/src/installer-security.js:22-24 | the shell reads the quoted form of every text as one word, that text, and leaves the rest alone |
| `ShellQuote.AssignmentReadsBack` | apps/central/src/installer-security.js:289-289 | KEY='...' hands over exactly the value |
| `SecretInput.ConcatDocument` | services/camera-worker-go/secret_input.go:28-63 | the loop writes the document of the specification, or refuses |
| `SecretInput.DocumentIff` | services/camera-worker-go/secret_input.go:28-63 | a document is written if and only if the URL is one line with a host and one of four schemes, and every option has a proper name and a value on one line |
| `SecretInput.UrlReadsBack` | services/camera-worker-go/secret_input.go:41-45 | the quoted URL is read back as the URL, for every text |
| `SecretInput.ValueReadsBackIff` | services/camera-worker-go/secret_input.go:56-60 | an option value is read back if and only if it has no blank, no quote, and no backslash before its end |
| `SecretInput.DocumentReadsBack` | services/camera-worker-go/secret_input.go:28-63 | reading the document yields the URL always, and the options if and only if all values are such |
| `SecretInput.PrepareInput` | services/camera-worker-go/secret_input.go:65-109 | refused unless the URL occurs exactly once; otherwise the rewritten command of the specification |
| `SecretInput.StripArgs` | services/camera-worker-go/secret_input.go:83-96 | the cursor loop |
| `SecretInput.WordsAreStripped` | services/camera-worker-go/secret_input.go:83-96 | listed options move with their values in order, all other words stay in order |
| `SecretInput.WordsExist` | services/camera-worker-go/secret_input.go:83-96 | every command line is such a sequence, with at most one listed name without a value at its end |
| `SecretInput.CommandIsSecured` | services/camera-worker-go/secret_input.go:65-109 | what becomes of a command with exactly one URL |
| `SecretInput.OnlyCommandsAreSecured` | services/camera-worker-go/secret_input.go:65-109 | only such commands are accepted |
| `SecretInput.SecretIsGone` | services/camera-worker-go/secret_input.go:97-103 | the URL is no longer on the command line unless it is one of the fixed words |

## Left out

- HTTP routing, sessions, mail, push, SSH, S3, ffmpeg and OpenCV calls: input and output only.
- AES-GCM, PBKDF2, SHA-256 and random tokens: tokens are fresh, and no two tokens that occur have the same digest.
- `normalizarAlertaOperacional`: only the key that it gives to a stored alert is a parameter, not its wording.
- AlertRuns.RunFollowsLedger, and the theorems after it: not for runs in which an acting check derives one key from
  two active ones, its own key, or an alias: then a list repeats a key or names an alias, of which
  `AlertDiff.AbsorbFrames`, `AlertDiff.UniqueAfterIff` and `AlertDiff.ResolvedExact` say what holds.
- Ids of alert entries, ISO date texts and entries without `lastSeenAt`: times are numbers and always present.
- Case folding beyond ASCII and Unicode normalisation of alert keys and operation names.
- Floating-point rounding of times, rates, bucket bounds and confidences.
- `reset()` of the detector registry, and the two minutes after which a waiting thread gives up: it may wake at any time.
- Cancellation of the awaiting coroutine in `run_confirm_motion`, and the confidence value of a verdict.
- Shutdown of the Go worker beyond the cancelled context, and the recording of the segments themselves.
- The wording of errors, `requestedBy` and `targetCommit` of remote operations, and action names that are
  properties of `Object.prototype`; an absent text is the empty string, as `|| null` treats it.
- The caller that passes the other tunnels to `validarFaixasDoTunel`: the profile route of server.js:4253 passes
  none, so the run theorem is about callers that pass all of them.
- The forbidden-range check of perfil-de-vpn.js, which compares spellings and not addresses.
- The URL template and URL checks of the installer artifact: a parameter that returns the checked URL or refuses.
- FFmpeg's own reader is not part of this repository: `SecretInput` states its quoting rules, and that a
  quotation left open runs to the end and a final backslash stands for itself.
- Bookkeeping timestamps of installer records (`approvedAt`, `boundAt`, last use), and artifacts whose id is a
  SHA-256 instead of a commit, which Central never writes into an installation.
- The numbers in a capture-rate report.
- Reading `/proc/stat`, logging and the diagnostics dictionaries of the stream processor: the load is a parameter.
- React screens, the scheduler, the datastore, the motion detector and the small decision functions: they have
  little state or branching of their own.
