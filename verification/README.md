# Jobtology planner, evidence and document models in Dafny

A model of three parts of the Jobtology backend, with proofs about whole runs and all inputs.

**Weekly planner.** `WorkCalendar` has instants, hours, dates, plan weeks and slot availability.
`SlotScan` decides which hours a plan may use, `Rotation` which step works each of them, and `Packer`
is the loop that does both at once and keeps the books. `RotationLaws`, `Priority`, `Prerequisites`,
`ZeroHours`, `RoundRobin` and `PackLaws` say what every run of it does. `WeeklyPlan` builds the plan of a
roadmap around the packer; `PlanLaws`, `PlanOrders`, `CustomPlan`, `CustomHours` and `RecommendedPlan` say
what that plan shows. `EditProtocol` is the store of saved plans with its save, preview and reset requests,
and `SavedRequests` says what they store and show.

**Bounded evidence.** `KeyedList` is an insertion-ordered dictionary with re-insertion. `EvidenceGraph`
merges graphs under a capacity and `MergeOrder` says exactly what survives; `Neighborhood` keeps what is
near a focus and `SearchOrder` says in which order it spends its room; `ChatRun` is the sequence of merges of
one chat; `Compact` trims nested values to a size budget and `CompactGreedy` says how much it keeps.

**Documents.** `TableGrid` writes tables with merged cells and forms them back as section 4.9.12.1 of
the HTML Living Standard does; `ColumnWidths` derives column widths; `Annotations` highlights spans of
text across runs; `PathOrder`, `DocumentTree`, `DocumentWalk`, `DocumentBuild` and `DocumentRows` turn a
flat mapping of paths to texts into a tree.

Where the original works by loops, dictionaries and deques, the model is a method (or a class, for the
plan store and the tree builder) proved equal to a specification function, and the laws are lemmas about
that function. `dafny verify dfyconfig.toml` checks everything.

What the proofs turned up:

- A step may ask for zero hours (the metadata allows it). The packer admits it, gives it an hour that
  another step asked for, and then fails on a step without a first hour. `PackLaws.ZeroHourStepFails`
  is such a job with all the room it needs, and `PackLaws.ExactIffPositive` shows that every step gets
  exactly its hours if and only if no step asks for zero. The link between warnings and broken
  prerequisites holds for every plan that is built, with zero-hour steps too.
- Merging can lose an edge without marking the graph truncated: an edge that comes before the node at its
  other end is dropped and does not come back with that node. `ChatRun.EarlyEdgeIsLost` is such a chat,
  and `ChatRun.EdgePresentIff` says exactly which edges an untruncated chat still has.
- A table survives the trip through HTML if and only if its cells do not overlap, every span is within
  the limits that the standard sets for `colspan` (1000) and `rowspan` (65534), and a table that lists no
  rows does not count any either: `TableGrid.RoundTripIffNonOverlapping`.
- A mapping with a cell in row 0 makes the whole document build fail, and nothing else does:
  `DocumentBuild.BuildMeaning`. A row with both a column 0 and a column 1 is the only kind whose cells
  are out of order: `DocumentRows.BuildOrdersRows`.

## Model

| member | source | states |
|---|---|---|
| `WorkCalendar.CeilHour` | src/jobtology_be/application/weekly_plan.py:139-141 | the first whole hour not before an instant |
| `WorkCalendar.NextDay` | src/jobtology_be/application/weekly_plan.py:165-170 | the jump over an excluded day passes exactly the rest of that day |
| `WorkCalendar.NextWeek` | src/jobtology_be/application/weekly_plan.py:171-174 | the jump over a rest or full week passes exactly the rest of that week |
| `WorkCalendar.WholeHourDates` | src/jobtology_be/application/weekly_plan.py:405-409 | with whole hours, the half-open end rule gives the dates of the first and the last hour worked |
| `WorkCalendar.OccupiedDates` | src/jobtology_be/application/weekly_plan.py:405-409 | the first and last dates of any interval are the first and last dates of the instants in it |
| `SlotScan.JumpRefinesScan` | src/jobtology_be/application/weekly_plan.py:163-178 | jumping over any stretch of unusable hours finds the same hours as going hour by hour |
| `SlotScan.ScanListsChosen` | src/jobtology_be/application/weekly_plan.py:160-178 | the first hours found are exactly the usable hours that are within their week's remaining room, independently defined |
| `SlotScan.ScanExhausts` | src/jobtology_be/application/weekly_plan.py:160-178 | a scan that finds too few hours has found every such hour before the limit |
| `SlotScan.WeekFill` | src/jobtology_be/application/weekly_plan.py:171-178 | in each week the chosen hours number the smaller of the room left and the usable hours |
| `SlotScan.ScanFeasible` | src/jobtology_be/application/weekly_plan.py:142-178 | the scan finds all hours asked for if and only if the capped usable hours before the limit suffice |
| `SlotScan.ScanIsLegal` | src/jobtology_be/application/weekly_plan.py:163-178 | every hour found is usable and no week exceeds its room |
| `SlotScan.ScanIsOptimal` | src/jobtology_be/application/weekly_plan.py:160-212 | against any other legal choice of hours from the same start, each hour found comes no later than its counterpart |
| `WorkingHours.OffsetBounds` | src/jobtology_be/application/weekly_plan.py:72-89 | the offset is non-negative and at most the first week's capacity plus one weekly capacity per later week |
| `WorkingHours.OffsetMonotone` | src/jobtology_be/application/weekly_plan.py:72-89 | a later start never has a smaller offset, also across the end of the first week |
| `WorkingHours.OffsetCountsHours` | src/jobtology_be/application/weekly_plan.py:72-89 | the offset is the number of hours from the first whole hour to the value, capped week by week (and weekly hours beyond 168 counted in full for weeks in between) |
| `Rotation.SortIsByPosition` | src/jobtology_be/application/weekly_plan.py:210-210 | sorting the ready steps by position has one result, the one used in the model |
| `Rotation.AdmitMoves` | src/jobtology_be/application/weekly_plan.py:179-187 | admission moves steps from the queue to the window without loss or repetition, never beyond two, and admits nothing only when nothing is ready |
| `Priority.AdmissionFollowsQueue` | src/jobtology_be/application/weekly_plan.py:179-187 | a step left ahead of an admitted one has a preferred start still to come; a step that is not due is admitted only if it heads the queue, nothing runs, nothing else is admitted and nobody is due; a window below two beside a non-empty queue means that something runs and nobody left is due |
| `Priority.QueueInOrder` | src/jobtology_be/application/weekly_plan.py:156-210 | in every state of every run the queue is in priority order |
| `Priority.WhoWorks` | src/jobtology_be/application/weekly_plan.py:179-195 | every hour goes to the first due step of the queue that finds a place in the window, else to the step whose turn it is, else to the head of the queue, else to the first unfinished step |
| `Priority.ForcedIsFirst` | src/jobtology_be/application/weekly_plan.py:191-194 | a forced step is the first unfinished one in the order |
| `Rotation.GrantWellFormed` | src/jobtology_be/application/weekly_plan.py:193-211 | every hour lowers one step's remaining hours by one, and the remaining hours always add up to the hours left |
| `RotationLaws.RunInv` | src/jobtology_be/application/weekly_plan.py:156-211 | throughout every run the queue and the window are disjoint, repeat nothing, hold only unfinished steps, and agree with the waiting sets |
| `RotationLaws.HoursConserved` | src/jobtology_be/application/weekly_plan.py:199-202 | at every moment the hours a step has worked and its remaining hours make up what it asked for |
| `RotationLaws.ExactHours` | src/jobtology_be/application/weekly_plan.py:199-203 | at the end every step has worked exactly what it asked for, whatever its prerequisites |
| `RotationLaws.AtMostTwoInProgress` | src/jobtology_be/application/weekly_plan.py:179-203 | at every moment at most two steps are started and unfinished |
| `Prerequisites.FindCycle` | src/jobtology_be/application/weekly_plan.py:191-194 | if every stuck step waits for a stuck step, some of them form a cycle |
| `Prerequisites.ForcedOnlyWhenIdle` | src/jobtology_be/application/weekly_plan.py:191-195 | a step starts before its prerequisites are finished only when nothing is ready or active |
| `Prerequisites.NeverIdle` | src/jobtology_be/application/weekly_plan.py:191-210 | without an unknown prerequisite or a cycle nothing is ever forced |
| `Prerequisites.SoundIsRespected` | src/jobtology_be/application/weekly_plan.py:148-210 | without an unknown prerequisite or a cycle every hour of a prerequisite comes before every hour of its dependent |
| `Prerequisites.BrokenIsSeen` | src/jobtology_be/application/weekly_plan.py:148-156 | with an unknown prerequisite or a cycle no order of the hours respects all prerequisites |
| `Prerequisites.PositiveRespectsIffSound` | src/jobtology_be/application/weekly_plan.py:148-210 | where every step asks for an hour, the run respects all prerequisites if and only if there is no unknown prerequisite and no cycle |
| `ZeroHours.ZeroRespects` | src/jobtology_be/application/weekly_plan.py:179-210 | beside a step that asks for no hour nothing is ever forced, so if everyone works all prerequisites are respected |
| `ZeroHours.BlockedZeroRests` | src/jobtology_be/application/weekly_plan.py:193-209 | a step that asks for no hour and has to wait never works |
| `ZeroHours.RespectedIffSound` | src/jobtology_be/application/weekly_plan.py:148-210 | in every run in which everyone works, all prerequisites are respected if and only if there is no unknown prerequisite and no cycle |
| `RoundRobin.BetweenTurns` | src/jobtology_be/application/weekly_plan.py:188-204 | between two consecutive hours of a step no other step works more than one hour |
| `Packer.CountFixedUse` | src/jobtology_be/application/weekly_plan.py:143-146 | the weekly use that fixed schedules bring along |
| `Packer.AdmitReady` | src/jobtology_be/application/weekly_plan.py:179-187 | the loop that fills the window is the admission rule of which `Priority.AdmissionFollowsQueue` says whom it admits |
| `Packer.ReleaseDependents` | src/jobtology_be/application/weekly_plan.py:204-210 | finishing a step removes it from all waiting sets and queues exactly the steps it frees, in priority order, however the dependents are enumerated |
| `Packer.GiveHour` | src/jobtology_be/application/weekly_plan.py:179-211 | one iteration on a usable hour is one transition of the rotation |
| `Packer.SkipDay` | src/jobtology_be/application/weekly_plan.py:165-170 | skipping an excluded day loses no usable hour |
| `Packer.SkipWeek` | src/jobtology_be/application/weekly_plan.py:171-174 | skipping a rest or full week loses no usable hour |
| `Packer.Assemble` | src/jobtology_be/application/weekly_plan.py:213-215 | the result joins fixed and packed schedules and fails on the first step without an hour |
| `Packer.Pack` | src/jobtology_be/application/weekly_plan.py:107-215 | the whole loop ends and returns the specified schedules, the scheduling error, or the failed lookup |
| `PackLaws.BookDescribes` | src/jobtology_be/application/weekly_plan.py:196-199 | start, end and weekly counts kept along the way are those of the set of hours the step worked, with increasing weeks |
| `PackLaws.FitsIffCapacity` | src/jobtology_be/application/weekly_plan.py:142-162 | packing raises its error if and only if the capped usable hours in the 520 weeks are fewer than the total |
| `PackLaws.PackedDescribes` | src/jobtology_be/application/weekly_plan.py:196-215 | every schedule of a packing, with or without zero-hour steps, describes usable hours none of which precedes the start in effect |
| `PackLaws.PackedExactly` | src/jobtology_be/application/weekly_plan.py:123-215 | where every step asks for an hour, every step gets exactly its hours, in usable slots, none before the start in effect |
| `PackLaws.HoursDisjoint` | src/jobtology_be/application/weekly_plan.py:195-212 | no slot serves two steps |
| `PackLaws.WeeklyCap` | src/jobtology_be/application/weekly_plan.py:143-146 | each week stays within the larger of the cap and the hours fixed there |
| `PackLaws.WeeksFromDates` | src/jobtology_be/application/weekly_plan.py:360-361 | the start and end weeks computed from dates are the weeks of the first and last allocation |
| `PackLaws.EndsIffPrecedes` | src/jobtology_be/application/weekly_plan.py:253-254 | comparing end and start instants is comparing the order of all hours |
| `PackLaws.MetIffSound` | src/jobtology_be/application/weekly_plan.py:191-210 | in every packing, every prerequisite ends before its dependent starts if and only if there is no unknown prerequisite and no cycle |
| `PackLaws.FinishesFirst` | src/jobtology_be/application/weekly_plan.py:160-212 | no other legal assignment of as many hours from the same start finishes earlier |
| `PackLaws.HoursIndependent` | src/jobtology_be/application/weekly_plan.py:137-212 | whether the work fits and which hours are worked do not depend on order, preferences or prerequisites |
| `PackLaws.ExactIffPositive` | src/jobtology_be/application/weekly_plan.py:200-203 | all steps get exactly their hours if and only if none asks for zero |
| `PackLaws.ZeroHourStepTakesAnHour` | src/jobtology_be/application/weekly_plan.py:200-215 | for every calendar with a usable hour, a zero-hour step takes the hour of the step behind it, and the packing fails |
| `PackLaws.ZeroHourStepFails` | src/jobtology_be/application/weekly_plan.py:200-215 | a concrete job and calendar where that happens |
| `WeeklyPlan.RecommendedInOrder` | src/jobtology_be/application/weekly_plan.py:267-267 | the recommended steps are all steps, ordered by position and identifier |
| `WeeklyPlan.OrderedIds` | src/jobtology_be/application/weekly_plan.py:268-272 | a custom order and the steps it leaves out give every step once, in the order that `PlanOrders.OrderFollowsSaved` states |
| `PlanOrders.OrderFollowsSaved` | src/jobtology_be/application/weekly_plan.py:269-272 | of two steps the first in the plan is the one the saved order names first; named steps come before the ones left out, which follow by position and identifier |
| `PlanOrders.UnchangedIff` | src/jobtology_be/application/weekly_plan.py:272-274 | the order of a plan is the recommended one if and only if the saved order puts no two steps differently than position and identifier do |
| `PlanOrders.CustomizedIff` | src/jobtology_be/application/weekly_plan.py:265-280 | a plan is customized, and has the saved weekly hours and rest weeks, if and only if the save is marked so and differs in weekly hours, rest weeks, order or the hours of a step |
| `PlanOrders.LineIds` | src/jobtology_be/application/weekly_plan.py:318-349 | the lines are numbered from 1 and are those of the steps in the plan's order |
| `PlanOrders.LinesInOrder` | src/jobtology_be/application/weekly_plan.py:267-277 | in every plan the lines follow the saved order if it is customized, else position and identifier |
| `PlanOrders.LinesAreSteps` | src/jobtology_be/application/weekly_plan.py:318-371 | the lines are those of the roadmap's steps |
| `PlanOrders.WorkFollowsSaved` | src/jobtology_be/application/weekly_plan.py:126-130 | steps are packed with the priority of the saved order in effect, else by position and identifier |
| `PlanOrders.WorkAsks` | src/jobtology_be/application/weekly_plan.py:46-52 | a step asks for the saved hours in effect, else for those it was pinned to, its estimate or 20, and waits for exactly its prerequisites that are unknown or unfinished |
| `PlanOrders.WishesIff` | src/jobtology_be/application/weekly_plan.py:92-104 | a step has a preferred start if and only if it is dated by the solver and no order other than the recommended one is in effect; it is the offset of its solver start |
| `WeeklyPlan.FutureStart` | src/jobtology_be/application/weekly_plan.py:135-138 | new work starts neither before completed work ends nor before the save time in effect |
| `WeeklyPlan.CollectUnmet` | src/jobtology_be/application/weekly_plan.py:238-255 | the reported prerequisites are exactly the unknown ones and the unfinished ones that end after the step starts |
| `WeeklyPlan.CountExactAllocations` | src/jobtology_be/application/weekly_plan.py:396-402 | counts solver hours per week in week order |
| `WeeklyPlan.FixCompleted` | src/jobtology_be/application/weekly_plan.py:288-305 | every completed step is fixed by its snapshot, its solver dates or its estimate, in that order |
| `WeeklyPlan.PackPlan` | src/jobtology_be/application/weekly_plan.py:306-307 | a custom plan is packed around the fixed steps, a recommended one is not |
| `WeeklyPlan.BuildWeeklyPlan` | src/jobtology_be/application/weekly_plan.py:258-393 | the plan of a roadmap, with the collapse to the recommendation and the error cases |
| `PlanLaws.ViolationsIffBroken` | src/jobtology_be/application/weekly_plan.py:331-337 | every customized plan reports some unmet prerequisite if and only if the unfinished steps have an unknown prerequisite or a cycle |
| `CustomPlan.LineShowsHours` | src/jobtology_be/application/weekly_plan.py:338-371 | every unfinished line of a customized plan stands for the open hours its step works: its exact times, dates, weeks and allocations are theirs |
| `CustomPlan.StartsAfterCompleted` | src/jobtology_be/application/weekly_plan.py:135-138 | an unfinished line starts after every completed line has ended |
| `CustomPlan.StartsAfterSave` | src/jobtology_be/application/weekly_plan.py:135-138 | and no earlier than the save in effect |
| `CustomPlan.LinesApart` | src/jobtology_be/application/weekly_plan.py:195-212 | no hour is shown for two steps |
| `CustomPlan.ExactLinesIffPositive` | src/jobtology_be/application/weekly_plan.py:323-324 | all unfinished lines are allocated exactly the hours they show if and only if none asks for zero |
| `CustomPlan.PlanWithinCap` | src/jobtology_be/application/weekly_plan.py:143-146 | in every week all lines together stay within the larger of the plan's weekly hours and what completed lines take |
| `CustomPlan.LineAsks` | src/jobtology_be/application/weekly_plan.py:323-324 | an unfinished line shows the saved hours of its step, else its own |
| `CustomHours.StartInEffect` | src/jobtology_be/application/weekly_plan.py:135-138 | new work may start exactly at the latest of the plan's start, the ends of completed work, and the time of the save or else the present; that time counts only if the present is known or something is completed |
| `CustomHours.CompletedUse` | src/jobtology_be/application/weekly_plan.py:143-146 | the weekly use to begin with is what the completed lines are allocated |
| `CustomHours.ShownIffWorked` | src/jobtology_be/application/weekly_plan.py:195-215 | an hour is shown for some line if and only if the packing works it |
| `CustomHours.PlanHoursExactly` | src/jobtology_be/application/weekly_plan.py:142-212 | a customized plan works an hour if and only if it comes from the start in effect up to the last hour worked, the dates, windows and rest weeks allow it, and the completed use and the usable hours before it leave room in its week |
| `CustomHours.LineKeepsCalendar` | src/jobtology_be/application/weekly_plan.py:163-178 | no line shows an hour on an unavailable date, in a rest week or outside the weekly windows |
| `RecommendedPlan.RecommendedLine` | src/jobtology_be/application/weekly_plan.py:322-371 | an unfinished line of a plan that is not customized has its own hours, stands at its solver dates with their allocations, or where it is packed if it has none, and reports exactly the prerequisites that are unknown, or unfinished and end after it starts |
| `RecommendedPlan.RecommendationShown` | src/jobtology_be/application/weekly_plan.py:265-277 | a saved plan that is not in effect shows the unfinished lines of the recommendation |
| `RecommendedPlan.UnsavedLineShown` | src/jobtology_be/application/weekly_plan.py:288-331 | and a completed line of which nothing was saved, too |
| `RecommendedPlan.PlanStart` | src/jobtology_be/application/weekly_plan.py:281-285 | a plan starts on the Monday of the earliest solver start, or of the roadmap's creation if there is none |
| `RecommendedPlan.EstimatesArePacked` | src/jobtology_be/application/weekly_plan.py:286-287 | the estimates are a packing of all steps from the plan's start in the roadmap's own calendar and weekly hours |
| `RecommendedPlan.CustomIsPacked` | src/jobtology_be/application/weekly_plan.py:306-307 | a customized plan is a packing of the unfinished steps around the completed ones, in the roadmap's calendar with the saved weekly hours and rest weeks |
| `RecommendedPlan.CompletedStands` | src/jobtology_be/application/weekly_plan.py:288-305 | completed work stands where it was saved, from midnight to midnight if without times; else at its solver dates with the solver's hours; else at its estimate |
| `PlanLaws.ExactAllocationsCount` | src/jobtology_be/application/weekly_plan.py:396-402 | per week the allocations count the solver's hours, in strictly increasing weeks |
| `EditProtocol.MakeOverrides` | src/jobtology_be/api/roadmap_plan.py:109-131 | an accepted draft has every step once in its order; `SavedRequests.DraftKeeps` states that it is the request |
| `SavedRequests.DraftKeeps` | src/jobtology_be/api/roadmap_plan.py:123-131 | a draft has the requested weekly hours, rest weeks and order, and gives every step the requested hours, or its own if none are requested |
| `SavedRequests.DraftIff` | src/jobtology_be/api/roadmap_plan.py:113-122 | a request is drafted if and only if its order is a permutation of the steps, its hours name only steps, both plans can be built and no completed line's hours change |
| `SavedRequests.DraftRefusal` | src/jobtology_be/api/roadmap_plan.py:113-122 | the reason of a refusal: the order first, then unknown hours, then a plan that cannot be built, then completed hours |
| `SavedRequests.SaveStoresRequest` | src/jobtology_be/api/roadmap_plan.py:98-106 | an accepted save stores the request in full, with the next version and the time of the write |
| `SavedRequests.SaveStoresLines` | src/jobtology_be/api/roadmap_plan.py:101-104 | and every line of the plan it previewed |
| `SavedRequests.SaveIff` | src/jobtology_be/api/roadmap_plan.py:98-106 | a save is accepted if and only if it can be drafted and planned, nobody completed a step it does not know of, and it names the stored version |
| `SavedRequests.SaveRefusal` | src/jobtology_be/infrastructure/persistence/weekly_plan.py:165-176 | the reason a save is refused: the draft, then its plan, then unknown progress, and only then the version |
| `SavedRequests.ShownAsRequested` | src/jobtology_be/api/roadmap_plan.py:105-106 | the plan of a stored request is customized if and only if the request differs from the recommendation, and then shows its weekly hours and rest weeks |
| `SavedRequests.LineAsRequested` | src/jobtology_be/api/roadmap_plan.py:123-128 | an unfinished line of that plan has the requested hours, or its own |
| `SavedRequests.NoWorkInRestWeek` | src/jobtology_be/api/roadmap_plan.py:126-128 | no unfinished line of that plan has an hour in a requested rest week |
| `SavedRequests.PutShowsRequest` | src/jobtology_be/api/roadmap_plan.py:98-106 | an accepted save stores the request; the plan it returns is customized if and only if the request differs from the recommendation, and then has its weekly hours and rest weeks and shows no hour in a requested rest week |
| `SavedRequests.ResetStores` | src/jobtology_be/infrastructure/persistence/weekly_plan.py:178-198 | an accepted reset stores no request, and of the history exactly the steps completed by then |
| `SavedRequests.ResetShowsRecommendation` | src/jobtology_be/api/roadmap_plan.py:146-148 | after a reset the unfinished lines are those of the recommendation |
| `SavedRequests.ResetForgets` | src/jobtology_be/infrastructure/persistence/weekly_plan.py:189-192 | a step not completed at the reset never gets back what was saved for it: its line is the recommendation's, even once it is completed |
| `EditProtocol.SaveSeesProgress` | src/jobtology_be/infrastructure/persistence/weekly_plan.py:165-176 | a save is accepted only if it knew of every step completed by then |
| `EditProtocol.SaveKeepsCompleted` | src/jobtology_be/api/roadmap_plan.py:98-106 | an accepted save stores every completed step as it was shown before |
| `EditProtocol.CompletedShown` | src/jobtology_be/application/weekly_plan.py:322-331 | a completed step with a snapshot is shown as its snapshot, whatever was submitted since |
| `EditProtocol.RunKeepsSnapshot` | src/jobtology_be/api/roadmap_plan.py:98-148 | over any sequence of saves and resets the snapshot of a step that stays completed shows the same |
| `EditProtocol.CompletedIsFrozen` | src/jobtology_be/api/roadmap_plan.py:98-148 | after any sequence of saves and resets a step that stays completed shows the same dates, exact times, hours and allocations |
| `EditProtocol.WriteMovesVersion` | src/jobtology_be/infrastructure/persistence/weekly_plan.py:147-163 | an accepted write names the current version and raises it by one; a rejected one changes nothing |
| `EditProtocol.OneWritePerVersion` | src/jobtology_be/infrastructure/persistence/weekly_plan.py:147-163 | of two writes that name the same version, however far apart, at most one is accepted |
| `EditProtocol.PlanStore.GetPlan` | src/jobtology_be/api/roadmap_plan.py:91-93 | shows the plan of what is stored |
| `EditProtocol.PlanStore.PutPlan` | src/jobtology_be/api/roadmap_plan.py:98-106 | stores the drafted plan with the previewed schedules, or refuses and leaves the store as it was |
| `EditProtocol.PlanStore.PreviewPlan` | src/jobtology_be/api/roadmap_plan.py:137-141 | shows a draft, or the recommendation, and stores nothing |
| `EditProtocol.PlanStore.DeletePlan` | src/jobtology_be/api/roadmap_plan.py:146-148 | leaves a versioned reset with the completed history |
| `KeyedList.LatestMeaning` | src/jobtology_be/chat/workspace_models.py:110-114 | what remains of each identifier is its last occurrence |
| `KeyedList.ReenterAllIsLatest` | src/jobtology_be/chat/workspace_models.py:110-114 | popping and re-inserting entry by entry leaves the last occurrences in order |
| `EvidenceGraph.CollectNodes` | src/jobtology_be/chat/workspace_models.py:110-114 | the nested loop collects the last occurrences of all nodes |
| `EvidenceGraph.CollectEdges` | src/jobtology_be/chat/workspace_models.py:124-129 | the nested loop collects the last occurrences of the edges between kept nodes |
| `EvidenceGraph.MergeGraphs` | src/jobtology_be/chat/workspace_models.py:109-136 | the loops compute the merge of which `MergeOrder.MergeKeepsExactly` and `MergeOrder.MergeKeepsEdgesExactly` say what it keeps |
| `EvidenceGraph.MergeBounded` | src/jobtology_be/chat/workspace_models.py:109-136 | at most 160 nodes and 320 edges, unique identifiers, no dangling edge |
| `EvidenceGraph.MergeKeepsLatest` | src/jobtology_be/chat/workspace_models.py:110-123 | every kept node has its latest content |
| `EvidenceGraph.MergeKeepsRequested` | src/jobtology_be/chat/workspace_models.py:115-123 | protected nodes that are present survive while they number at most 160 |
| `EvidenceGraph.UntruncatedIsComplete` | src/jobtology_be/chat/workspace_models.py:134-136 | the result of one merge not marked truncated has exactly the last occurrences of all nodes and of all edges between present nodes, with their content |
| `EvidenceGraph.MergeAgain` | src/jobtology_be/chat/workspace_models.py:109-136 | merging a result again with the same protected set changes nothing |
| `MergeOrder.MergeKeepsExactly` | src/jobtology_be/chat/workspace_models.py:110-123 | the nodes kept are exactly the first 160 requested ones, then the first 16 at most of the context (profile, goal, role, preferences), then the most recent of the others, by when each was brought last |
| `MergeOrder.MergeListsInOrder` | src/jobtology_be/chat/workspace_models.py:115-123 | they are listed in these three parts, each by when it was brought last |
| `MergeOrder.DroppedIsOlder` | src/jobtology_be/chat/workspace_models.py:121-122 | a node kept for being recent was last brought after every node that is dropped |
| `MergeOrder.MergeKeepsEdgesExactly` | src/jobtology_be/chat/workspace_models.py:124-133 | the edges kept are exactly the first 320 at requested nodes, then the most recent of the others, among those that came between kept nodes |
| `MergeOrder.MergeKeepsLatestEdge` | src/jobtology_be/chat/workspace_models.py:125-129 | every edge kept has its last content |
| `MergeOrder.TruncatedIff` | src/jobtology_be/chat/workspace_models.py:136-136 | a merge is marked truncated if and only if an input is, or more than 160 different nodes or 320 different edges between kept nodes came together |
| `MergeOrder.MergeKeepsWarnings` | src/jobtology_be/chat/workspace_models.py:135-135 | a merge has the warnings of its inputs, each once |
| `Neighborhood.CollectRow` | src/jobtology_be/chat/evidence.py:14-20 | the candidates next to one node, each once |
| `Neighborhood.SearchRound` | src/jobtology_be/chat/evidence.py:13-28 | one round of the search, taking turns between parents |
| `Neighborhood.KeepNeighborhood` | src/jobtology_be/chat/evidence.py:7-33 | the three-round loop with its early exit computes the neighbourhood |
| `Neighborhood.FoundMeaning` | src/jobtology_be/chat/evidence.py:8-30 | the search stays within three permitted hops, within the limit or the focus, and finds the whole ball if it fits |
| `Neighborhood.NeighborhoodMeaning` | src/jobtology_be/chat/evidence.py:7-33 | the same for the returned graph, with exactly the induced edges |
| `SearchOrder.FoundNearestFirst` | src/jobtology_be/chat/evidence.py:12-30 | nearer nodes are kept first: a node of one level is kept only beside all nodes of the levels below, and the search stops short of three hops only when its room is used up |
| `SearchOrder.TakesTurns` | src/jobtology_be/chat/evidence.py:21-28 | within a level the nodes are taken by their place beside their parent and then by parent, so that parents take turns |
| `SearchOrder.PostingsApart` | src/jobtology_be/chat/evidence.py:11-18 | from a focus with a posting the search keeps no other posting and no evidence of one |
| `SearchOrder.AnywhereElse` | src/jobtology_be/chat/evidence.py:11-18 | from any other focus every node is permitted |
| `SearchOrder.MarkedIfSmaller` | src/jobtology_be/chat/evidence.py:33-33 | the result is marked truncated if and only if the graph was, or some node of it is not kept |
| `MergeOrder.ByKeyIsLast` | src/jobtology_be/chat/evidence.py:8-8 | of several nodes with one identifier the search has the last |
| `ChatRun.Answer` | src/jobtology_be/chat/workspace.py:95-236 | the merges of one chat, in order, with the growing protected set |
| `ChatRun.RunBounded` | src/jobtology_be/chat/workspace.py:155-236 | after any run of merges the bounds, uniqueness and no dangling edge hold |
| `ChatRun.ProtectedSurvive` | src/jobtology_be/chat/workspace.py:155-236 | a protected node that is present survives the rest of the chat while at most 160 are protected |
| `ChatRun.OpeningSurvives` | src/jobtology_be/chat/workspace.py:95-104 | so do all nodes of the opening evidence |
| `ChatRun.PersonalSurvives` | src/jobtology_be/chat/workspace.py:234-236 | so do all nodes of a reply with personal records |
| `ChatRun.FocusSurvives` | src/jobtology_be/chat/workspace.py:155-156 | and all nodes near the focus after an expansion |
| `ChatRun.ShownIsLatest` | src/jobtology_be/chat/workspace.py:95-236 | after any run each node shown has the content of the last reply that had it, or the opening's if none had |
| `ChatRun.UntruncatedRunKeepsNodes` | src/jobtology_be/chat/workspace.py:95-236 | a run not marked truncated in the end has lost no node and shows each as it came last |
| `ChatRun.UntruncatedRunKeepsEdges` | src/jobtology_be/chat/workspace.py:95-236 | and has exactly the last of each edge among those that came with both ends known by then |
| `ChatRun.EdgePresentIff` | src/jobtology_be/chat/workspace_models.py:124-129 | an edge identifier is present after such a run if and only if it came at some point with both ends known by then |
| `ChatRun.EarlyEdgeIsLost` | src/jobtology_be/chat/workspace_models.py:124-136 | a concrete chat that loses an edge between present nodes without being marked truncated |
| `Compact.TrimEntriesOf` | src/jobtology_be/chat/personal.py:34-46 | the loop over a mapping with its early stop computes the specified entries |
| `Compact.TrimItemsOf` | src/jobtology_be/chat/personal.py:47-57 | the loop over a list with its early stop computes the specified items |
| `Compact.TrimValue` | src/jobtology_be/chat/personal.py:31-61 | the recursive trimmer computes the specified value |
| `Compact.CompactText` | src/jobtology_be/chat/personal.py:30-62 | at most 1846 characters for a mapping, 1814 for a list, 1800 for a text; a small value is written unchanged |
| `Compact.TrimBounded` | src/jobtology_be/chat/personal.py:31-61 | for any budget of at least 6, at any depth, the text exceeds the budget by no more than the separators |
| `Compact.DumpLength` | src/jobtology_be/chat/personal.py:41-55 | the JSON text is what the trimmer counts plus the separators it leaves out |
| `Compact.SmallIsKept` | src/jobtology_be/chat/personal.py:31-61 | a value within the counts and nesting whose worst-case size is within the budget is not changed |
| `Compact.TrimPrunes` | src/jobtology_be/chat/personal.py:31-61 | everything kept comes from the value and in its order: entries left out, keys and texts cut, nesting cut off |
| `CompactGreedy.TextIsMaximal` | src/jobtology_be/chat/personal.py:60-61 | a text is kept whole, or up to 700 characters, or until one more might not fit |
| `CompactGreedy.ListIsGreedy` | src/jobtology_be/chat/personal.py:47-57 | of its first 16 items a list keeps exactly those whose trimmed form fits into what is left when their turn comes |
| `CompactGreedy.MappingIsGreedy` | src/jobtology_be/chat/personal.py:34-46 | up to the entry for which too little is left, a mapping takes exactly those of its first 24 entries that fit when their turn comes; of keys that are equal once cut the first gives the place and the last the value |
| `TableGrid.CoverSpan` | src/jobtology_be/document_processor/annotations.py:961-965 | marks exactly the positions a span covers besides its own |
| `TableGrid.RenderRow` | src/jobtology_be/document_processor/annotations.py:938-976 | one row of cells, skipping covered positions |
| `TableGrid.RenderTable` | src/jobtology_be/document_processor/annotations.py:906-978 | all rows, and none for a table that lists no rows; `TableGrid.TableRoundTrip` and `TableGrid.EmitWithin` state the extent |
| `TableGrid.EmitWithin` | src/jobtology_be/document_processor/annotations.py:923-939 | nothing is written beyond the larger of the counted rows and columns and those that cells reach |
| `TableGrid.LastCellIsWritten` | src/jobtology_be/document_processor/annotations.py:920-959 | of the cells at one position the last is written with its spans, and an empty cell where there is none |
| `TableGrid.FormUndoesEmit` | src/jobtology_be/document_processor/annotations.py:937-976 | forming a table from the emitted rows places every cell where the emitter had it |
| `TableGrid.TableRoundTrip` | src/jobtology_be/document_processor/annotations.py:906-978 | for non-overlapping cells every cell is back at its row and column with its span, and the positions occupied, each exactly once, are exactly those within the counted or reached rows and columns; a table without rows comes back without any |
| `TableGrid.RoundTripIffNonOverlapping` | src/jobtology_be/document_processor/annotations.py:906-978 | the round trip holds if and only if cells do not overlap, spans are within the HTML limits, and a table without rows counts no position |
| `ColumnWidths.CollectCells` | src/jobtology_be/document_processor/annotations.py:676-694 | unspanned cells set their columns, spanning cells are put aside in order |
| `ColumnWidths.DistributeSpan` | src/jobtology_be/document_processor/annotations.py:696-709 | one spanning cell, in place |
| `ColumnWidths.TableColumnWidths` | src/jobtology_be/document_processor/annotations.py:671-725 | the whole computation |
| `ColumnWidths.OneWidthPerColumn` | src/jobtology_be/document_processor/annotations.py:671-676 | there are exactly as many widths as the table or its style counts columns, or as its cells reach |
| `ColumnWidths.SpannedMeaning` | src/jobtology_be/document_processor/annotations.py:684-694 | the spanning cells put aside are, in order, exactly the cells with a width that span more than one of the columns, cut off at the last one |
| `ColumnWidths.UnspannedKeepsLargest` | src/jobtology_be/document_processor/annotations.py:688-692 | a column set by unspanned cells ends with the largest of their widths |
| `ColumnWidths.SpanIsMetForGood` | src/jobtology_be/document_processor/annotations.py:696-709 | a spanning cell with a column nobody set, wider than the columns set by then, has columns that add up to its width in the end; if not wider, such a column has an equal part |
| `ColumnWidths.TableWidthIsMet` | src/jobtology_be/document_processor/annotations.py:711-725 | columns nobody set make the total the table's width if room remains, and otherwise nothing changes |
| `ColumnWidths.EqualParts` | src/jobtology_be/document_processor/annotations.py:696-709 | columns that a spanning cell is the first to set end with equal widths |
| `ColumnWidths.EqualRest` | src/jobtology_be/document_processor/annotations.py:711-725 | so do the columns that no cell sets |
| `Annotations.FindTextOccurrences` | src/jobtology_be/document_processor/annotations.py:166-174 | all occurrences, overlapping ones included, in order |
| `Annotations.ResolveSelectedSpan` | src/jobtology_be/document_processor/annotations.py:177-209 | the requested occurrence, or the exact reason there is none |
| `Annotations.ApplyAnnotations` | src/jobtology_be/document_processor/annotations.py:339-383 | cutting at all boundaries shows each character under exactly the annotations that cover it, in order |
| `Annotations.MarksInOrder` | src/jobtology_be/document_processor/annotations.py:339-383 | the annotations shown at a position are exactly those that cover it, in the order of the annotations |
| `Annotations.RunAnnotationsForSegment` | src/jobtology_be/document_processor/annotations.py:743-774 | clipping keeps what covers each character of the run |
| `Annotations.RenderParagraph` | src/jobtology_be/document_processor/annotations.py:777-798 | the segments in order show every character under its run's and paragraph's annotations, and their texts join to the run texts |
| `Annotations.MarkedIffAnnotated` | src/jobtology_be/document_processor/annotations.py:743-798 | a character is inside a mark if and only if some run or paragraph annotation covers it |
| `Annotations.DivisionDoesNotMatter` | src/jobtology_be/document_processor/annotations.py:743-798 | paragraph annotations show the same for any division into runs |
| `PathOrder.PathTotal` | src/jobtology_be/document_processor/builder.py:28-30 | the structural sort key orders any two different paths one way |
| `PathOrder.NumbersDecide` | src/jobtology_be/document_processor/builder.py:28-30 | the first number in which two paths differ decides |
| `PathOrder.ShorterFirst` | src/jobtology_be/document_processor/builder.py:28-30 | a path comes before its extensions |
| `PathOrder.MarkersDecide` | src/jobtology_be/document_processor/builder.py:28-30 | with equal numbers the first different marker decides, in alphabetical order |
| `PathOrder.SortMeaning` | src/jobtology_be/document_processor/builder.py:398-398 | sorting keeps the elements and orders them |
| `PathOrder.AscendingUnique` | src/jobtology_be/document_processor/builder.py:398-398 | the same elements have one sorted order |
| `DocumentTree.IngestParagraphMeaning` | src/jobtology_be/document_processor/builder.py:229-293 | ingesting a path keeps the table, cell and paragraph indexes in agreement with the tree and adds exactly its run, if it is a run path; it fails exactly on row 0 |
| `DocumentTree.IngestTableMeaning` | src/jobtology_be/document_processor/builder.py:181-226 | the same below a table |
| `DocumentTree.EnsureTableKeeps` | src/jobtology_be/document_processor/builder.py:105-120 | getting or creating a table keeps the agreement and adds no run |
| `DocumentTree.EnsureCellKeeps` | src/jobtology_be/document_processor/builder.py:123-142 | so does getting or creating a cell |
| `DocumentTree.EnsureCellParagraphKeeps` | src/jobtology_be/document_processor/builder.py:145-165 | so does getting or creating a cell's paragraph |
| `DocumentWalk.WalkMeetsEveryRunOnce` | src/jobtology_be/document_processor/models.py:277-284 | walking a tree whose indexes agree with it, runs before tables, meets every run exactly once |
| `DocumentBuild.FinishKeeps` | src/jobtology_be/document_processor/builder.py:296-319 | the final sorting keeps the agreement and the runs |
| `DocumentBuild.BuildMeaning` | src/jobtology_be/document_processor/builder.py:380-428 | the walk of the built document is exactly the runs of the mapping, each once, in sorted lists; a build fails exactly on a cell in row 0 |
| `DocumentBuild.OrderDoesNotMatter` | src/jobtology_be/document_processor/builder.py:398-398 | the document does not depend on the order of the mapping |
| `DocumentRows.BuildOrdersRows` | src/jobtology_be/document_processor/models.py:365-383 | in a built document the cells of a row are in column order if and only if it lacks a column 0 or a column 1 |
| `DocumentRows.ZeroAfterOne` | src/jobtology_be/document_processor/models.py:378-381 | a concrete row with both, in which column 0 comes last |
| `DocumentBuild.Builder.GetOrCreateCell` | src/jobtology_be/document_processor/builder.py:123-142 | finds the cell in its index or puts a new one into index and table, and refuses row 0 |
| `DocumentBuild.Builder.IngestTableTokens` | src/jobtology_be/document_processor/builder.py:181-226 | the recursive ingestion below a table, in place |
| `DocumentBuild.Builder.IngestParagraphTokens` | src/jobtology_be/document_processor/builder.py:229-293 | the recursive ingestion of a path, in place |
| `DocumentBuild.Builder.Build` | src/jobtology_be/document_processor/builder.py:380-428 | the whole build |

## Left out

- Time zones with daylight saving or fractional-hour offsets: a zone is a whole number of hours, as the default Asia/Seoul is.
- Stored rows, sessions and locks: a stored plan is one value, and reading it and writing it each happen at one moment; the version check is part of the write.
- EditProtocol.CompletedIsFrozen: speaks from the first accepted save on; before it there is no snapshot, and an undated completed step is shown by its estimate.
- Messages, labels, progress counts, phases, totals, target-date warnings and the recommended completion date of a plan: single expressions over what is modelled.
- Rest weeks are a set and a prerequisite list enters the waiting sets as a set; only membership matters there.
- WeeklyPlan.CountExactAllocations: counts into a list kept in week order, where the original counts into a dictionary and sorts it at the end.
- DocumentTree.IngestParagraphMeaning: paths are lists of tokens with their numbers; how tokens are spelled (leading zeros, stray characters after a paragraph number) is not modelled.
- Styles of the document builder, recomputed texts, row and column counts and hashed node identifiers; without styles there are no spans, so expanding merged cells changes nothing.
- DocumentBuild.FinishKeeps: sorts all lists at once, where the original walks the tree; all lists are in the tree.
- DocumentBuild.Builder.Build: an object is the entry of its index and is named by its path in its parent, instead of being shared by reference.
- Column widths are exact numbers; rounding of floating point is not modelled.
- HTML escaping, CSS, colours and the text of attributes: rendered output is segments with their marks, and cells with their spans.
- `html_exporter.py`: its table and width code repeats that of `annotations.py`.
- Retrieval, prompts, streaming, language models, databases, routing and sign-in: input and output around the modelled logic.
- Ranking of personal records, credit tables, draft validation and checklists: single-branch facts.
