# fnvr, modelled and proved

fnvr is a network video recorder: a C++ supervisor groups cameras into worker processes and publishes what they
see, a Go API server answers queries and guards sign-in, and a Python worker clusters faces and watches 3D
prints. This project models the decision logic of those programs and proves what it is meant to guarantee, over
every input and every run. Floating point numbers are modelled as reals; clocks, databases, networks, neural
networks and generated ids are parameters.

Each component has a specification (functions), an implementation in the source's own form (classes with fields,
methods with loops, unstable sorts, maps walked in any order) proved against that specification, and lemmas that
say what the specification means.

| files | component |
|---|---|
| Grouping, GroupingProofs, Planner, Signature, Shapes | the group planner and the restart signature |
| Windows, FleetSteps, Supervisor, FleetHistory, FleetReconcile, FleetEscalation, EscalationRuns, QuarantineHistory, PassParts | the fleet supervisor: fault storms, strikes, quarantine, probation, reconcile passes, back-off |
| WorkerLoop | the restart loop of one worker: back-off, heal ladder, flap detector |
| FaceCapture, FaceTable, Thinning, ObjectTable, Tables | per-track publishing of faces and objects over runs with prune passes, letterbox coordinates |
| Greedy, Nms, Overlap, EnrolPrune | greedy selection, written three ways |
| LikeMatch, Timeline, SummaryMeaning, Summary | plate queries and the bucketed detection summary |
| Accounts, AccountProofs, AccountHistory, AuthStore, LoginThrottle | users, tokens, sessions, sign-in |
| ScoreProbe, ScoreMeaning, Clusters | face matching and nightly clustering |
| Darknet, Extents, Weights, Reorg | the YOLO network builder, its weights and its reorg layer |
| PrintMonitor, PerceptualHash, HashBuffers, PgArray | print-failure alerts, image hashes, array literals |
| Ordering, Options, Text, Arithmetic | shared sequences, text and number facts |

## What does not hold, and exactly when it does

Where the code does not do what its comments promise, the code is modelled as it is, a witness shows the failure,
and the condition is proved.

- The chronic crash-loop override (`supervisor.cpp:355-359`, `547-549`) can never fire. It asks for ten unhealthy
  exits in a row and for three exits within a minute; after eight, the back-off keeps exits more than 30 s apart,
  so a group that never becomes healthy within its startup grace is never reported as failed
  (`WorkerLoop.ChronicNeverFlaps`, `WorkerLoop.ReportsExactly`, `WorkerLoop.GraceNeverOverridden`).
- The quarantine back-off promises to double for repeat offenders (`supervisor.cpp:133-137`). In every run it passes
  60 s exactly when a camera is condemned while its entry is on probation (`FleetEscalation.EscalatesExactly`). Over
  clean fleets that never happens while three conditions hold: passes are not interrupted, every marker comes from a
  group of several, and it names a current member of that group (`FleetEscalation.OrdinaryRunsNeverEscalate`); a
  camera on probation then runs alone, and graduation forgets it. Each condition is needed: a run that keeps to the
  other two doubles the back-off (`EscalationRuns.LoneMarkersEscalate`, `EscalationRuns.FormerMemberEscalates`,
  `EscalationRuns.InterruptedPassEscalates`). Markers are an arbitrary input there; how they come to be written is not
  modelled. No child of a group of one writes any (`pipeline.cpp:1003-1004`), so those of the first run are not fnvr's
  own. A marker for a former member, or several for one camera in one batch, can be what a stopped worker left unread:
  the marker file of a group is appended to (`pipeline.cpp:1025-1026`), read without looking at membership
  (`supervisor.cpp:40-60`) and found by the next worker of the same group id.
- The face budget of a track, max_per_track and then one face per 30 s, restarts when a track is pruned while the
  person is still tracked: four faces in 30.5 s instead of three (`FaceTable.FourInThirtySeconds`). It holds in all
  runs exactly when no erasure comes between sightings or the budget is one (`FaceTable.BudgetExactly`); the bound
  that always holds adds max_per_track - 1 for each further life (`FaceTable.RateBounded`).
- A restart signature identifies a group when the fields hold no separator. Fields with separators can collide: an
  address with `;` does, and an explicit `all` detector list looks like an empty one
  (`Signature.SeparatorCollision`, `Signature.AllCollision`).
- A camera whose detector list names only `transcode`, or `none` more than once, runs alone like one that needs
  transcoding or has no detectors (`Shapes.SoloExactly`).
- Group ids are unique unless a detector list spells a key in the `solo-` or `probation-` namespace
  (`GroupingProofs.ClashIsReal`).
- A route reference below the first layer reads the input's channel count while building and wraps around when
  run (`Darknet.RouteRefExact`, `Darknet.RouteBeforeInput`).
- The C++ and Python overlap tests differ exactly in a sliver of width 1e-9 (`Nms.OverlapTestsDiffer`).
- `PruneEnrolBatch` counts items over the cap as skipped, its comment says it counts near-duplicates only
  (`EnrolPrune.OverCapIsCounted`); the two counts are equal exactly when no candidate comes after maxNew were kept
  (`EnrolPrune.SkippedCountsRejectedOnly`).
- Hot and cold plate searches are meant to agree, but the database column drops the percent signs of a plate read and
  the sidecar search keeps them. They select alike, for every query, exactly when the plate was read without one
  (`LikeMatch.HotAndColdAgreeExactly`, `LikeMatch.PercentDiffers`).
- With a matching margin of zero, which the settings allow, two people who tie are both acceptable and map order
  decides (`ScoreProbe.TieHasTwoWinners`, `ScoreProbe.WinnerUnique`).
- Changing one's own password opens a session without looking at the disabled flag; the session invariant
  survives exactly when the account is enabled, which the middleware ensures
  (`AccountProofs.ChangePasswordNeedsEnabled`).
- Crops lower than 8 lines leave empty hash cells in the RGBA downsampler only, so there the two downsamplers
  disagree and the hash depends on brightness (`HashBuffers.BuffersAgreeExactly`,
  `HashBuffers.BufferHashStableExactly`). Below 8 columns (and, for grey, 8 lines) pixels are read more than once
  (`PerceptualHash.RgbaReadsOnceExactly`, `PerceptualHash.GreyReadsOnceExactly`).
- The comment on the heal delay describes a doubling from 120 s; the code's ladder is 10, 60, 240, 600 s.

## Model

| member | source | states |
|---|---|---|
| Planner.PlanGroups | apps/pipeline-supervisor/src/grouping.cpp:40-95 | the bucketing, sorting and chunking loops produce the specified plan list sorted by group id: all of it, but for the order of groups that share an id, and exactly it when no shape key clashes |
| Planner.DetectorsKeyOf | apps/pipeline-supervisor/src/grouping.cpp:20-30 | the loop over the ordered set builds the detector key |
| GroupingProofs.PlanAreGroups | apps/pipeline-supervisor/src/grouping.cpp:49-87 | the plan list holds exactly the groups of the declarative rule: one per probation or bespoke camera, consecutive id-ordered slices per shape otherwise |
| GroupingProofs.PlanPartitions | apps/pipeline-supervisor/src/grouping.cpp:49-71 | a camera that is not quarantined is in exactly one group, a quarantined one in none |
| GroupingProofs.GroupMembers | apps/pipeline-supervisor/src/grouping.cpp:72-87 | sizes are 1 to group_max, members ascend by id, batched members share a shape, probation marks exactly the probation cameras |
| GroupingProofs.IdsUnique | apps/pipeline-supervisor/src/grouping.cpp:89-93 | groups with the same id are the same group |
| GroupingProofs.ClashIsReal | apps/pipeline-supervisor/src/grouping.cpp:54-81 | the excluded shape keys are exactly those whose chunk ids can equal a solo or probation id |
| GroupingProofs.PlanOrderIndependent | apps/pipeline-supervisor/src/grouping.cpp:89-95 | permuting the cameras gives the identical plan list |
| Signature.SignatureOf | apps/pipeline-supervisor/src/grouping.cpp:97-106 | the string-building loop yields the specified signature |
| Signature.RecordReads | apps/pipeline-supervisor/src/grouping.cpp:101-103 | a camera appears in it as its seven fields with semicolons between |
| Text.DecSpells | apps/pipeline-supervisor/src/grouping.cpp:78-81 | numbers in ids and signatures print as the digits that spell them, without leading zeros |
| Ordering.StrLessExactly | apps/pipeline-supervisor/src/grouping.cpp:89-93 | the string order of ids: agreement up to the first difference, and there the smaller byte or the end |
| Signature.DetectorsKeyExact | apps/pipeline-supervisor/src/grouping.cpp:20-30 | detector keys are equal exactly when the detector sets are |
| Signature.SignatureExact | apps/pipeline-supervisor/src/grouping.cpp:97-106 | signatures of clean plans are equal exactly when id, probation, members in order and their restart-relevant settings are |
| Signature.PlannedIsClean | apps/pipeline-supervisor/src/grouping.cpp:97-106 | planning clean cameras gives clean plans, so the signature is exact on everything the supervisor compares |
| Signature.SeparatorCollision | apps/pipeline-supervisor/src/grouping.cpp:101-103 | moving a `;`-separated part between url and substream keeps the signature |
| Signature.AllCollision | apps/pipeline-supervisor/src/grouping.cpp:21 | an explicit `all` and an empty detector list share a signature |
| Shapes.SoloExactly | apps/pipeline-supervisor/src/grouping.cpp:11-38 | a clean camera outside quarantine and probation runs alone exactly when it is rotated, proxied, or its detector list names only `none` (or a detector called `transcode`) |
| Shapes.TogetherAlike | apps/pipeline-supervisor/src/grouping.cpp:34-38 | two cameras of one group are unrotated, unproxied, off probation and run the same detectors, `none` excluded |
| Shapes.AlikePacked | apps/pipeline-supervisor/src/grouping.cpp:72-87 | cameras of that kind with the same detectors share groups as far as the limit allows: of two groups with such cameras the one with the smaller ids is full |
| Windows.WindowRefines | apps/pipeline-supervisor/src/supervisor.cpp:120-124 | pushing onto a trimmed deque and trimming gives the window of the full history |
| Windows.RecentCount | apps/pipeline-supervisor/src/supervisor.cpp:494-501 | the window holds k entries exactly when the k-th last event is recent |
| Supervisor.Supervisor.NoteFaultAndCheckStorm | apps/pipeline-supervisor/src/supervisor.cpp:117-128 | records the fault, trims two minutes, reports a storm of three distinct cameras |
| Supervisor.Supervisor.QuarantineMember | apps/pipeline-supervisor/src/supervisor.cpp:130-143 | the entry's new back-off and deadline, other entries untouched |
| Supervisor.Supervisor.GraduateProbation | apps/pipeline-supervisor/src/supervisor.cpp:145-151 | the camera leaves quarantine and its worker retires |
| Supervisor.Supervisor.HandleChildExit | apps/pipeline-supervisor/src/supervisor.cpp:471-514 | a batch of markers is handled one by one, then the worker retires if one of them convicted |
| Supervisor.Supervisor.ReconcileOnce | apps/pipeline-supervisor/src/supervisor.cpp:153-266 | the erasing walk and the start loop apply the plan list, by the table of signatures when groups share an id, and perform the specified pass when no shape key clashes |
| FleetHistory.RunRefinesHistory | apps/pipeline-supervisor/src/supervisor.cpp:117-128 | in every run, under every interleaving, the storm window and all strike deques equal their windows of the full marker history |
| FleetHistory.QuarantinedExactlyOnThirdStrike | apps/pipeline-supervisor/src/supervisor.cpp:471-508 | a step quarantines a camera exactly when it handles that worker's third counted marker within 10 minutes outside a storm |
| FleetHistory.RetiresExactlyOnConviction | apps/pipeline-supervisor/src/supervisor.cpp:509-514 | after a batch a worker retires exactly when its history holds a conviction |
| FleetHistory.BackoffLadder | apps/pipeline-supervisor/src/supervisor.cpp:130-143 | in every run every back-off is 60, 120, 240, 480 or 600 s |
| FleetReconcile.PassMatchesPlan | apps/pipeline-supervisor/src/supervisor.cpp:190-265 | after a pass the running groups are the planned ones with matching signatures; a worker survives exactly when planned unchanged and not retired |
| FleetReconcile.PassIdempotent | apps/pipeline-supervisor/src/supervisor.cpp:153-266 | a second pass changes nothing while no deadline falls between the two |
| PassParts.PassIsItsParts | apps/pipeline-supervisor/src/supervisor.cpp:153-266 | for every state a pass is its parts in order: resolving deadlines, stopping groups one by one, starting planned ones one by one |
| FleetReconcile.RunSound | apps/pipeline-supervisor/src/supervisor.cpp:188-265 | in every run over clean fleets each worker runs a clean plan of its own group under its signature |
| FleetReconcile.PassRunsEveryCamera | apps/pipeline-supervisor/src/supervisor.cpp:164-181 | in every run over clean fleets: after a pass every camera past its deadline runs in exactly one group, every other quarantined camera in none |
| FleetEscalation.CondemnsExactly | apps/pipeline-supervisor/src/supervisor.cpp:474-504 | the quarantining branch is taken exactly at the third strike of the history |
| FleetEscalation.EscalatesExactly | apps/pipeline-supervisor/src/supervisor.cpp:130-143 | in every run some back-off exceeds 60 s by a step exactly when an earlier step condemned a camera whose entry was on probation |
| FleetEscalation.OrdinaryRunsNeverEscalate | apps/pipeline-supervisor/src/supervisor.cpp:130-143 | so every back-off is 60 s in runs over clean fleets whose passes are not interrupted and whose markers each come from a group of several and name a current member of it |
| EscalationRuns.ReportedOnProbation | apps/pipeline-supervisor/src/supervisor.cpp:474-508 | for every clean fleet, each camera and each group planned during its probation, three markers for it from that group double its back-off |
| EscalationRuns.LoneMarkersEscalate | apps/pipeline-supervisor/src/supervisor.cpp:130-143 | without the condition on group size alone: for every clean fleet and each camera, markers from its probation group of one reach 120 s |
| EscalationRuns.FormerMemberEscalates | apps/pipeline-supervisor/src/supervisor.cpp:40-60 | without the condition on membership alone: for each camera of a group of three or more, markers for it from the group of several that keeps the id without it reach 120 s |
| EscalationRuns.InterruptedPassEscalates | apps/pipeline-supervisor/src/supervisor.cpp:164-177 | with interrupted passes alone: for each camera of a group of several, deadlines resolved in the middle of one batch of six markers, all under one batch clock, reach 120 s |
| QuarantineHistory.HealthyLifts | apps/pipeline-supervisor/src/supervisor.cpp:145-151 | in every run graduation erases the entry of the first member, retires that worker and leaves all else as it was |
| QuarantineHistory.EntryIsLastOffence | apps/pipeline-supervisor/src/supervisor.cpp:130-186 | in every run a camera has an entry exactly if it was condemned and no graduation lifted that since; its deadline is one back-off after the last condemnation, and it is on probation exactly if a later pass found the deadline past |
| QuarantineHistory.BackoffCountsOffences | apps/pipeline-supervisor/src/supervisor.cpp:130-143 | in every run the back-off is 60, 120, 240, 480 or 600 s by the number of condemnations since the first on probation |
| QuarantineHistory.ProbationExactly | apps/pipeline-supervisor/src/supervisor.cpp:164-181 | in every run over clean fleets the group that runs a camera after a pass is a probation group exactly if the camera has an entry |
| QuarantineHistory.GraduateRejoins | apps/pipeline-supervisor/src/supervisor.cpp:426-446 | in every run over clean fleets a camera that graduated runs in exactly one group after the next pass, no probation group, unless condemned again |
| WorkerLoop.Worker.ChildExited | apps/pipeline-supervisor/src/supervisor.cpp:516-570 | one exit's effect on back-off, heal count, flap window and the failed report |
| WorkerLoop.Worker.ForkFailed | apps/pipeline-supervisor/src/supervisor.cpp:378-384 | a failed fork sleeps and doubles the back-off |
| WorkerLoop.BackoffCountsTurns | apps/pipeline-supervisor/src/supervisor.cpp:519-526 | the back-off depends only on the number of turns since the last healthy exit |
| WorkerLoop.BackoffTable | apps/pipeline-supervisor/src/supervisor.cpp:568-569 | that dependence is 1, 2, 4, 8, 16 and then 30 s |
| WorkerLoop.HealsCounted | apps/pipeline-supervisor/src/supervisor.cpp:528-538 | the heal count is the number of short-lived rc=3 exits since the last child that lived ten minutes |
| WorkerLoop.DelayLadder | apps/pipeline-supervisor/src/supervisor.cpp:387-393 | the next heal delay is 10, 60, 240 or 600 s by that number |
| WorkerLoop.DelayGrows | apps/pipeline-supervisor/src/supervisor.cpp:387-393 | only a ten-minute life shortens the delay, back to 10 s |
| WorkerLoop.DequeIsWindow | apps/pipeline-supervisor/src/supervisor.cpp:540-546 | the trimmed exit deque is the last minute of all exits |
| WorkerLoop.ChronicNeverFlaps | apps/pipeline-supervisor/src/supervisor.cpp:547-549 | after eight exits without a healthy one at most two exits lie within a minute |
| WorkerLoop.ReportsExactly | apps/pipeline-supervisor/src/supervisor.cpp:547-566 | a group is reported failed exactly at the third exit within a minute, given no grace or some healthy child; the override plays no part |
| WorkerLoop.GraceNeverOverridden | apps/pipeline-supervisor/src/supervisor.cpp:355-359 | a group that never gets healthy within its grace is never reported |
| Tables.KeyIsLife | apps/pipeline-supervisor/src/pipeline.cpp:859-896 | in every run of sightings and prune passes a key holds the state its own sightings since its last erasure lead to |
| FaceTable.Tracks.OnFace | apps/pipeline-supervisor/src/pipeline.cpp:689-755 | one face updates its own track as specified and leaves the others alone |
| FaceTable.Tracks.Prune | apps/pipeline-supervisor/src/pipeline.cpp:877-895 | exactly the tracks unseen for 30 s go, each pending best is flushed once |
| FaceTable.EntryIsTrace | apps/pipeline-supervisor/src/pipeline.cpp:689-755 | in every run a track is in the state of the trace of its current life, and its next sighting is answered as that trace answers it |
| FaceCapture.TracePaced | apps/pipeline-supervisor/src/pipeline.cpp:697-753 | every trace of one life: first face at once, later publishes no sooner than their window, each the best since the one before |
| FaceTable.LifePaced | apps/pipeline-supervisor/src/pipeline.cpp:697-753 | so is the current life of every track in every run, with the best since the last publish pending in the table |
| FaceTable.NothingBetterIsLost | apps/pipeline-supervisor/src/pipeline.cpp:716-727 | in every run each sighting is matched or beaten by the first publish or farewell from then on, or by the pending best |
| FaceTable.NoBestDiscarded | apps/pipeline-supervisor/src/pipeline.cpp:872-895 | in every run, once a track is erased every sighting of it has been matched or beaten by something sent |
| FaceTable.RateBounded | apps/pipeline-supervisor/src/pipeline.cpp:733-750 | in every run, erasures and farewells included, at most 1 + T/interval publishes; without farewells at most max_per_track + T/30 s, plus max_per_track - 1 for each life after the first |
| FaceTable.RestartBreaksBudget | apps/pipeline-supervisor/src/pipeline.cpp:859-895 | for every budget of two or more, a run with one erasure that exceeds max_per_track + T/30 s |
| FaceTable.FourInThirtySeconds | apps/pipeline-supervisor/src/pipeline.cpp:859-895 | such a run event by event: four faces in 30.5 s with a budget of two |
| FaceTable.BudgetExactly | apps/pipeline-supervisor/src/pipeline.cpp:733-750 | max_per_track + T/30 s holds in all runs with at most k erasures between sightings exactly when k is 0 or the budget is 1 |
| Thinning.LetterboxFits | apps/pipeline-supervisor/src/pipeline.cpp:202-213 | the scaled source fits the canvas, touches it in one direction and keeps its aspect ratio |
| Thinning.LetterboxRoundTrip | apps/pipeline-supervisor/src/pipeline.cpp:629-642 | mapping a box in the unit square to the canvas and back is the identity |
| Thinning.PictureRoundTrip | apps/pipeline-supervisor/src/pipeline.cpp:202-213 | a box of the picture, drawn as large as fits in the upper left corner of the canvas, comes back unchanged |
| Thinning.NormaliseNearest | apps/pipeline-supervisor/src/pipeline.cpp:637-646 | any box: the corner goes to the nearest place of the picture and each side to the nearest that stays inside |
| ObjectTable.Objects.OnObject | apps/pipeline-supervisor/src/pipeline.cpp:760-782 | one object sighting updates its track and is published as specified |
| ObjectTable.Objects.Prune | apps/pipeline-supervisor/src/pipeline.cpp:859-871 | exactly the tracks unseen for 30 s go |
| Thinning.StalenessBounded | apps/pipeline-supervisor/src/pipeline.cpp:757-782 | every clamped trace of one life: a sighting is published exactly when the last published one is no longer within eps, class and keepalive |
| ObjectTable.LifeThinned | apps/pipeline-supervisor/src/pipeline.cpp:757-782 | so is the current life of every track in every run, and its entry records the last published sighting |
| ObjectTable.StalenessBoundedInRuns | apps/pipeline-supervisor/src/pipeline.cpp:757-782 | in every run a sighting is published exactly when its track is new, was erased since, or the last published sighting no longer stands for it; afterwards the last published one does |
| Greedy.StableUnique | apps/pipeline-supervisor/nvdsinfer_scrfd/nvdsparse_scrfd.cpp:45-58 | there is only one selection whose kept items never clash and whose dropped items clash with an earlier kept one |
| Greedy.ChosenIsStable | apps/pipeline-supervisor/nvdsinfer_scrfd/nvdsparse_scrfd.cpp:45-58 | the greedy scan is that selection |
| Greedy.ShrinkIsChosen | apps/ml-worker/fnvr_ml/scrfd.py:65-82 | for a symmetric overlap the shrinking order selects the same items as the keep list |
| Nms.NmsCpp | apps/pipeline-supervisor/nvdsinfer_scrfd/nvdsparse_scrfd.cpp:45-58 | sort and keep-list loop return the greedy selection of a score order |
| Nms.NmsPy | apps/ml-worker/fnvr_ml/scrfd.py:65-82 | the shrinking loop returns the specified positions, for all boxes, degenerate ones included |
| Nms.OverlapTestsDiffer | apps/ml-worker/fnvr_ml/scrfd.py:74-81 | the two overlap tests differ exactly when the intersection falls in the 1e-9 sliver |
| Overlap.IouIsShare | apps/pipeline-supervisor/nvdsinfer_scrfd/nvdsparse_scrfd.cpp:33-43 | the overlap of boxes that share a point is the size of their common part over that of all pieces the two cover |
| Overlap.PiecesTile | apps/pipeline-supervisor/nvdsinfer_scrfd/nvdsparse_scrfd.cpp:33-43 | those pieces cover every point of either box once and no other point |
| Overlap.IouZeroExactly | apps/pipeline-supervisor/nvdsinfer_scrfd/nvdsparse_scrfd.cpp:33-43 | the overlap of boxes with corners in order is zero exactly when they share no point |
| Overlap.IouContained | apps/pipeline-supervisor/nvdsinfer_scrfd/nvdsparse_scrfd.cpp:33-43 | a box within another overlaps it by the ratio of their sizes |
| Overlap.IouSelf | apps/pipeline-supervisor/nvdsinfer_scrfd/nvdsparse_scrfd.cpp:33-43 | a box overlaps itself by one |
| Nms.TwinsAgree | apps/pipeline-supervisor/nvdsinfer_scrfd/nvdsparse_scrfd.cpp:34-58 | both programs keep the same boxes of a score order unless boxes at two different positions fall in that sliver |
| Nms.ScoreOrderUnique | apps/pipeline-supervisor/nvdsinfer_scrfd/nvdsparse_scrfd.cpp:45-50 | distinct scores force the order, whatever the unstable sort does |
| Nms.NmsKeptApart | apps/pipeline-supervisor/nvdsinfer_scrfd/nvdsparse_scrfd.cpp:45-58 | kept boxes never overlap above the threshold |
| Nms.NmsDroppedCovered | apps/pipeline-supervisor/nvdsinfer_scrfd/nvdsparse_scrfd.cpp:45-58 | a dropped box overlaps a kept one of at least its score |
| Nms.NmsIdempotent | apps/pipeline-supervisor/nvdsinfer_scrfd/nvdsparse_scrfd.cpp:45-58 | running it on its own result changes nothing |
| EnrolPrune.PruneEnrolBatch | apps/api-server/internal/persons/enrolprune.go:27-55 | keeps the first maxNew of the greedy selection against the existing pool, counts the rest as skipped |
| EnrolPrune.PruneMeaning | apps/api-server/internal/persons/enrolprune.go:14-26 | kept faces are new and mutually distinct; below the cap every dropped one duplicates something kept or stored |
| EnrolPrune.SkippedCountsRejectedOnly | apps/api-server/internal/persons/enrolprune.go:21-32 | the skipped count is the number of candidates looked at and turned down for similarity exactly when no candidate comes after maxNew were kept |
| EnrolPrune.OverCapIsCounted | apps/api-server/internal/persons/enrolprune.go:30-32 | two equal candidates and room for one: none is turned down, one is counted |
| LikeMatch.LikeMatch | apps/api-server/internal/detections/store.go:383-411 | the leftmost-greedy search answers the declarative LIKE |
| LikeMatch.LikeIsFits | apps/api-server/internal/detections/store.go:383-411 | character-level LIKE equals the existence of a decomposition into the pattern's segments |
| LikeMatch.GreedyIsComplete | apps/api-server/internal/detections/store.go:395-404 | taking the leftmost occurrence of a segment never loses a match |
| LikeMatch.NormaliseIdempotent | apps/api-server/internal/detections/store.go:83-98 | normalising a plate query twice changes nothing |
| LikeMatch.SqlIsLike | apps/api-server/internal/detections/store.go:179-185 | on one plate text and any normalised query, the SQL condition (LIKE or equality) is what the sidecar matcher decides |
| LikeMatch.HotAndColdAgreeExactly | apps/api-server/internal/detections/store.go:308-320 | database and sidecar select a detection alike, for every query, exactly when its plate was read without a percent sign |
| LikeMatch.PercentDiffers | apps/api-server/internal/db/migrations/0013_plate_hotlist.sql:13-16 | for every plate read with a percent sign, a query that selects it in one place only |
| Timeline.BucketSpan | apps/api-server/internal/detections/summary.go:77-89 | inside the range bucket i is exactly the i-th n-th of it |
| Timeline.BucketMonotone | apps/api-server/internal/detections/summary.go:77-89 | bucket indices follow time |
| Timeline.SummaryPermuted | apps/api-server/internal/detections/summary.go:247-283 | a summary depends on nothing but which events there are |
| SummaryMeaning.SummaryMeans | apps/api-server/internal/detections/summary.go:244-284 | every bucket of a summary: its number of events, its up to three classes with the most events in order with their numbers, its best confidence and its kinds, all by places in the history; and no non-empty bucket is missing |
| Summary.SummaryAgg.AggregateSidecars | apps/api-server/internal/detections/summary.go:214-245 | after the scan the map counts exactly the in-range lines of the camera besides what it held |
| Summary.SummaryAgg.AggregateRows | apps/api-server/internal/detections/summary.go:155-177 | after the grouped rows the map counts exactly their events besides what it held |
| Summary.AddAggregates | apps/api-server/internal/detections/summary.go:62-75 | adding a group of events of one key keeps the map exact |
| Summary.ReduceSummary | apps/api-server/internal/detections/summary.go:247-283 | for any map order the output is the ascending list of non-empty buckets with total, best confidence, top three classes and kinds of their events |
| Summary.ReadOnce | apps/api-server/internal/detections/summary.go:99-126 | every event of the range is read exactly once from the cold or the hot half, whatever the cutoff |
| Summary.Summarise | apps/api-server/internal/detections/summary.go:91-134 | the reply is the summary of the whole history, the same for every cutoff, row order and map order; invalid arguments are refused |
| AccountProofs.SessionsNeverStale | apps/api-server/internal/auth/auth.go:189-207 | in every run, restarts included, each session names an enabled user with its current role and api-only flag, and an api-only session's token exists |
| AccountProofs.PerformSafe | apps/api-server/internal/auth/auth.go:288-412 | each single operation keeps that invariant |
| AccountProofs.AdminRequestIsAdmin | apps/api-server/internal/auth/auth.go:605-632 | in every run a request let through as admin belongs to an enabled admin of the user table |
| AccountProofs.AdminKept | apps/api-server/internal/auth/auth.go:382-402 | no operation removes the last enabled admin |
| AccountProofs.AdminForever | apps/api-server/internal/auth/auth.go:382-402 | once there is an enabled admin there always is one |
| AccountProofs.PasswordChangeEndsSessions | apps/api-server/internal/auth/auth.go:124-156 | after a password changes, the only session of that user is the one the change issued |
| AccountProofs.ChangePasswordNeedsEnabled | apps/api-server/internal/auth/auth.go:124-156 | changing a password keeps the invariant exactly when the account is enabled |
| AccountHistory.SignInExactly | apps/api-server/internal/auth/auth.go:158-187 | signing in works exactly when an enabled row that is not api-only has that name and secret; the session is for that row |
| AccountHistory.OnlyNewPasswordSignsIn | apps/api-server/internal/auth/auth.go:124-156 | in every run, after a password was set that password and no other signs the user in, while enabled and until it is set again or the user deleted |
| AccountHistory.OwnChangeExactly | apps/api-server/internal/auth/auth.go:124-156 | a password change goes through exactly for a live browser session whose user knows the present secret and picks twelve characters or more |
| AccountHistory.RowFollows | apps/api-server/internal/auth/auth.go:232-400 | over all operations: who may change role, flag and password of a row, and to what; nothing else of a row changes |
| AccountHistory.RowAppears | apps/api-server/internal/auth/auth.go:94-118 | rows come from creation and the first start alone, and always then |
| AccountHistory.AdminExactly | apps/api-server/internal/auth/auth.go:382-402 | when each administrative operation goes through; the last enabled administrator is neither deleted, demoted nor disabled |
| AccountHistory.TokensFollow | apps/api-server/internal/auth/auth.go:419-492 | over all operations: tokens come with their creation and go with revocation or their user |
| AccountHistory.RequestExactly | apps/api-server/internal/auth/auth.go:605-632 | a request passes exactly with a session that has not run out or, as a bearer, with a token of an enabled user |
| AccountHistory.SessionsAreHistory | apps/api-server/internal/auth/auth.go:189-230 | in every run a browser session is there exactly if a step opened it and none of the ten kinds of step that end it came since |
| AccountHistory.PassesExactly | apps/api-server/internal/auth/auth.go:605-632 | in every run a request passes as a browser exactly under a token whose session was opened, not ended since and has not run out |
| AccountHistory.SomeAdminForever | apps/api-server/internal/auth/auth.go:382-402 | in every run, once some row is an enabled administrator, one always is |
| AuthStore.Store.constructor | apps/api-server/internal/auth/auth.go:83-92 | a store over existing tables starts without sessions |
| AuthStore.Store.Bootstrap | apps/api-server/internal/auth/auth.go:94-118 | the administrator is created exactly when there are no users |
| AuthStore.Store.AddUser | apps/api-server/internal/auth/auth.go:232-266 | a user row as specified, refusing an empty password and a taken name |
| AuthStore.Store.AddToken | apps/api-server/internal/auth/auth.go:419-453 | a token only for enabled api-only users |
| AuthStore.Store.DropSessions | apps/api-server/internal/auth/auth.go:404-412 | the walk removes exactly the matching sessions |
| AuthStore.Store.Delete | apps/api-server/internal/auth/auth.go:290-305 | guard, row deletion and session drop together are the specified deletion |
| AuthStore.Store.ChangeRole | apps/api-server/internal/auth/auth.go:334-357 | guard, row update and session drop together are the specified role change |
| AuthStore.Store.Disable | apps/api-server/internal/auth/auth.go:359-380 | guard, row update and session drop together are the specified change of the flag |
| AuthStore.Store.Revoke | apps/api-server/internal/auth/auth.go:474-492 | the token and the session resolved from it go together |
| AuthStore.Store.ChangePassword | apps/api-server/internal/auth/auth.go:124-156 | checks, row update, session drop and new session are the specified change |
| AuthStore.Store.SignIn | apps/api-server/internal/auth/auth.go:158-187 | sign-in as specified, refusing unknown, disabled and api-only users |
| AuthStore.Store.Middleware | apps/api-server/internal/auth/auth.go:605-632 | session lookup, then the bearer cache, as specified |
| LoginThrottle.BackoffExact | apps/api-server/internal/server/authflow.go:49-66 | for every failure count the wrapping shift and the cap test give min(2 s * 2^(n-6), 5 min) |
| LoginThrottle.Throttle.RetryAfter | apps/api-server/internal/server/authflow.go:38-47 | positive exactly while locked out, then the remaining time rounded up to a second |
| LoginThrottle.Throttle.RecordFailure | apps/api-server/internal/server/authflow.go:49-66 | counts the failure and sets the lockout of that key only |
| LoginThrottle.Throttle.HandleLogin | apps/api-server/internal/server/server.go:430-459 | a login is refused while locked out, else it counts or clears by its outcome |
| LoginThrottle.EntryTracksGuesses | apps/api-server/internal/server/authflow.go:49-72 | in every run a key's entry is determined by its outstanding wrong guesses, and those are spaced by their pauses |
| LoginThrottle.RefusedExactly | apps/api-server/internal/server/authflow.go:38-47 | in every run a login is turned away exactly while its key has six or more outstanding guesses and waits out the pause of the last |
| LoginThrottle.PauseTable | apps/api-server/internal/server/authflow.go:15-34 | the pauses are 2 s after the sixth guess, doubling to 256 s after the thirteenth, then 300 s |
| LoginThrottle.GuessRateBounded | apps/api-server/internal/server/authflow.go:15-34 | beyond the fourteenth, a key gets at most one guess every five minutes |
| ScoreProbe.Decide | apps/api-server/internal/persons/retromatch.go:116-167 | a match is returned exactly when some person is acceptable; it is an acceptable one, with its score and the label of its last row |
| ScoreMeaning.ScoreMeans | apps/api-server/internal/persons/retromatch.go:135-147 | a score is the mean of the three best cosines of the person, row for row, or of all when there are fewer |
| ScoreMeaning.AcceptableExactly | apps/api-server/internal/persons/retromatch.go:148-167 | a person is acceptable exactly when they have rows, their score reaches the threshold and leads each other person by the margin, and no single dismissed negative, weighted, takes it under the threshold |
| ScoreProbe.OrderIndependent | apps/api-server/internal/persons/retromatch.go:116-167 | who is acceptable does not depend on the order of the embeddings |
| ScoreProbe.WinnerUnique | apps/api-server/internal/persons/retromatch.go:148-157 | a second acceptable person needs an exact tie and a margin of zero or less |
| ScoreProbe.VerdictsAgree | apps/api-server/internal/persons/retromatch.go:116-167 | with a positive margin two correct answers on permuted rows agree on verdict, person and similarity |
| ScoreProbe.TieHasTwoWinners | apps/api-server/internal/persons/retromatch.go:148-157 | without one, any two single-row people who tie above the threshold are both acceptable |
| ScoreProbe.StricterRejectsMore | apps/api-server/internal/persons/retromatch.go:148-167 | more negatives, a higher threshold or margin never turn a rejection into a match |
| Clusters.ClusterTables.BatchCluster | apps/ml-worker/fnvr_ml/clusters.py:148-296 | the tables are rewritten one-to-one from labels; in ascending order each label keeps the id of the most similar cluster still open if that is similar enough, else gets a new one; preserved counts the kept ids, preserved + new = clusters written, members + noise = decoded |
| Clusters.ClusterTables.Unenrolled | apps/ml-worker/fnvr_ml/clusters.py:174-185 | the pool lists exactly the unenrolled clusters with their centroids |
| Clusters.ClusterTables.ChooseCluster | apps/ml-worker/fnvr_ml/clusters.py:207-257 | a label takes the best matching unclaimed cluster or a new id, and that cluster leaves the pool |
| Clusters.LabelsKeepBest | apps/ml-worker/fnvr_ml/clusters.py:207-257 | a label keeps a stored id only of an unenrolled cluster no smaller label took, at 0.6 or more, and then of the best; and always when there is one |
| Clusters.RowsDescribe | apps/ml-worker/fnvr_ml/clusters.py:221-254 | the row of a label carries the centroid, the number and the first of its detections |
| Clusters.MemberCountExact | apps/ml-worker/fnvr_ml/clusters.py:221-254 | member_count is the number of members, and no unenrolled cluster is empty |
| Clusters.OneUnenrolledCluster | apps/ml-worker/fnvr_ml/clusters.py:259-280 | a detection is in at most one unenrolled cluster |
| Clusters.EnrolledUntouched | apps/ml-worker/fnvr_ml/clusters.py:187-198 | enrolled clusters keep their row and their members |
| Darknet.BuildNet | tools/model-prep/convert_obico_darknet.py:83-124 | the building loop yields the specified layers and channel counts, or the error |
| Darknet.Forward | tools/model-prep/convert_obico_darknet.py:126-143 | the execution loop yields the specified shape at the first region layer, or the error |
| Darknet.InferredChannelsAreReal | tools/model-prep/convert_obico_darknet.py:82-143 | with in-range routes building succeeds and every layer's inferred channel count is that of its tensor when run |
| Darknet.HeadChannelsAreReal | tools/model-prep/convert_obico_darknet.py:126-143 | with in-range routes the executor, which stops at the first region layer, fails only on sizes or for want of a region, and hands it the inferred channel count |
| Darknet.RouteRefExact | tools/model-prep/convert_obico_darknet.py:109-138 | builder and executor resolve a reference to the same layer exactly when it is in range |
| Darknet.RouteBeforeInput | tools/model-prep/convert_obico_darknet.py:109-138 | a configuration that builds and runs with a wrong channel count |
| Extents.ConvolutionExact | tools/model-prep/convert_obico_darknet.py:86-98 | a convolution runs exactly on tensors of the channels it was built for, with as many window positions as fit the padded extents |
| Extents.SamePadding | tools/model-prep/convert_obico_darknet.py:91 | with an odd kernel and stride one, padding keeps the extents |
| Extents.MaxPoolExact | tools/model-prep/convert_obico_darknet.py:99-102 | pooling keeps channels and has as many window positions as fit |
| Extents.RouteExact | tools/model-prep/convert_obico_darknet.py:126-143 | a route runs exactly when the outputs it names have equal extents, and adds their channels |
| Extents.ReorgExact | tools/model-prep/convert_obico_darknet.py:111-115 | a reorg layer runs exactly when both extents split evenly |
| Weights.LoadWeights | tools/model-prep/convert_obico_darknet.py:185-208 | loading succeeds exactly when the file has as many floats as the layers, and then every bias, scale, mean, variance and kernel is its own stretch of the file |
| Weights.LoadedIsFile | tools/model-prep/convert_obico_darknet.py:185-208 | the loaded tensors, written out in order, are the file |
| Reorg.ReorgClosedForm | tools/model-prep/convert_obico_darknet.py:65-71 | the view/transpose chain equals out[k*C+c, y, x] = in[c, y*s + k/s, x*s + k%s] |
| Reorg.ReorgMoves | tools/model-prep/convert_obico_darknet.py:65-71 | the output is the input carried along one map of flat positions |
| Reorg.ReorgOnto | tools/model-prep/convert_obico_darknet.py:65-71 | each flat input position goes to exactly one output position, channel included |
| Reorg.ReorgInto | tools/model-prep/convert_obico_darknet.py:65-71 | each flat output position comes from exactly one input position |
| PrintMonitor.Monitor.Sample | apps/ml-worker/fnvr_ml/printmon.py:318-341 | one step updates its own camera's state and returns the specified messages |
| PrintMonitor.MeanBounded | apps/ml-worker/fnvr_ml/printmon.py:325 | the mean stays between 0 and the largest score |
| PrintMonitor.MeanIsGeometricSum | apps/ml-worker/fnvr_ml/printmon.py:325 | the mean is the geometric sum of the scores |
| PrintMonitor.AlertsExactly | apps/ml-worker/fnvr_ml/printmon.py:332-339 | a step alerts exactly when the mean is over the threshold and every earlier such step was followed by one under half of it |
| PrintMonitor.SentExactly | apps/ml-worker/fnvr_ml/printmon.py:318-341 | in every run of frames: a frame is answered by a detection of its first strong box, if any, and a print failure exactly if it alerts, with that box, the mean and the mean capped at 0.99 |
| PrintMonitor.ScoreAdds | apps/ml-worker/fnvr_ml/printmon.py:323 | the score of a frame is the sum of its confidences |
| PrintMonitor.AlertsSeparated | apps/ml-worker/fnvr_ml/printmon.py:332-339 | between two alerts the mean falls under half the threshold |
| PrintMonitor.ZerosDecay | apps/ml-worker/fnvr_ml/printmon.py:325 | k empty frames shrink the mean by 0.78^k |
| PrintMonitor.RearmsWithin | apps/ml-worker/fnvr_ml/printmon.py:338-340 | 3j empty frames re-arm the alert once 2^j exceeds twice the largest score over the threshold |
| PerceptualHash.DownsampleRgba | apps/pipeline-supervisor/src/object_phash.cpp:9-50 | every cell is the rounded-down mean luma of its rectangle, read in bounds, for every image size |
| PerceptualHash.DownsampleGrey | apps/pipeline-supervisor/src/object_phash.cpp:66-86 | the same for grey pixels, with at least one line per cell |
| PerceptualHash.AverageHash | apps/pipeline-supervisor/src/object_phash.cpp:52-64 | the loop assembles the specified hash word |
| PerceptualHash.HashBits | apps/pipeline-supervisor/src/object_phash.cpp:57-62 | bit 63-i is set exactly when cell i is above the truncated mean |
| PerceptualHash.LineInCell | apps/pipeline-supervisor/src/object_phash.cpp:22-29 | every line belongs to exactly one cell |
| PerceptualHash.RgbaReadsOnceExactly | apps/pipeline-supervisor/src/object_phash.cpp:22-46 | the rectangles read add up to the image, for all images of a size, exactly when it is at least 8 columns wide |
| PerceptualHash.GreyReadsOnceExactly | apps/pipeline-supervisor/src/object_phash.cpp:70-84 | the same for the grey downsampler exactly from 8x8 on |
| HashBuffers.BuffersAgreeExactly | apps/pipeline-supervisor/src/object_phash.cpp:9-86 | on RGBA buffers with equal channels and the grey buffer of the same picture the two downsamplers agree, for all pictures of a size, exactly when it is at least 8 lines high |
| HashBuffers.LumaIsGrey | apps/pipeline-supervisor/src/object_phash.cpp:36-41 | the integer luma is that of BT.601 to within 1.5 grey levels, and monotone in every channel |
| PerceptualHash.NeverAllOnes | apps/pipeline-supervisor/src/object_phash.cpp:52-64 | no hash is all ones |
| PerceptualHash.GreyHashStable | apps/pipeline-supervisor/src/object_phash.cpp:52-86 | adding a constant to every grey pixel, unclipped, keeps the hash |
| HashBuffers.BufferHashStableExactly | apps/pipeline-supervisor/src/object_phash.cpp:9-64 | adding a constant to every colour channel of an RGBA buffer, unclipped, keeps the hash, for all crops of a size, exactly from 8 lines on |
| PgArray.ParsePgArray | apps/pipeline-supervisor/src/db_reconciler.cpp:65-86 | the index-advancing reader terminates on every input and computes the specified elements |
| PgArray.ParseInvertsPrint | apps/pipeline-supervisor/src/db_reconciler.cpp:60-86 | reading a printed array gives its elements, empty ones left out |
| PgArray.NotAnArray | apps/pipeline-supervisor/src/db_reconciler.cpp:67-68 | a text without braces around it has no elements |
| PgArray.QuoteThenText | apps/pipeline-supervisor/src/db_reconciler.cpp:71-83 | after a closing quote the next element follows, with a comma or without, whatever the rest |
| PgArray.UnclosedQuote | apps/pipeline-supervisor/src/db_reconciler.cpp:71-80 | a quote that is never closed takes what is left, a last backslash included |

## Left out

- Reconcile pass: the pass theorems and `OrdinaryRunsNeverEscalate` take a pass as one step; the history, ladder and escalation theorems also cover its three parts interleaved with worker steps.
- Clock readings: reading the clock and pushing onto a deque is one step; the source reads just before it locks.
- FleetHistory.QuarantinedExactlyOnThirdStrike: markers are recorded in clock order, which that lock race could break by microseconds.
- FleetReconcile.PassRunsEveryCamera: the fleets of its runs have distinct camera ids, fields without separators and no key in the reserved namespaces; what each condition shuts out is proved separately.
- Processes: fork, exec, waitpid, signals, engine files and stagger waits are outcomes given to the steps; the member list of a child and the muted classes are not modelled.
- WorkerLoop: the several clock readings of one exit are one instant, and a child lives for some positive time.
- Fault markers: an arbitrary input, since the process that writes them and the file they pass through are outside; the runs of EscalationRuns do not derive their markers from writes.
- FaceTable and ObjectTable: the prune pass every 250 buffers is an event at any time; the flush is modelled with a bus attached in the run theorems. Crops, JPEG encoding and bus payloads are one opaque frame; a failed publish counts as an attempt, as in the source.
- Nms: the parser around it, landmarks and the sort of the Python twin; its input is a score order.
- Nms.TwinsAgree: for boxes with corners in order, as both detectors emit them; on others the two overlap tests are unrelated.
- LikeMatch: only the `%` wildcard, as in the source; `_` is an ordinary character there and never survives normalisation. Decoding the attributes of a detection is left out, and the case folding of the database is that of ASCII letters.
- Detection lists: the hot/cold merge of List truncates sidecars in file order, so its result for a limit is not characterised.
- Summary.Summarise: segment paths and the limit of 2000 segments, JSON decoding, zero times and bucket_ms; the two-level map is one map keyed by bucket, class and kind, and the database's answer is any grouping of the table.
- Auth: database errors, cookie handling, password hashing and concurrency; the admin guard's check and write are one step, so the admin theorems hold for sequential runs.
- LoginThrottle: concurrent requests of one key between check and count, and rounding of seconds in floating point.
- ScoreProbe: decoding embeddings and computing cosines; each enrolled row carries its cosine.
- Clusters: HDBSCAN, centroids and cosines are functions; rows that fail to decode are gone before the model starts, timestamps and similarity columns are not modelled.
- Darknet: convolution arithmetic, the decoding head and preprocessing; shapes only, plus the order of weights.
- Reorg.ReorgClosedForm: one batch item, as every step carries the batch index along unchanged.
- PrintMonitor: detection and message encoding; a message is its class, confidence, box and mean.
- PerceptualHash: 32-bit overflow of cell bounds for images wider than 2^28, and the hexadecimal printing.
- PgArray: the JSON array reader of the same file.
- Base64 encoding, member names, settings, thumbnails, the web interface and the stores for settings, zones, rules and incidents are outside the model.
