# Station and renderer: a verified model

This project models five parts of the station and its renderers, each in its own modules, and proves what each
is for. `dafny verify dfyconfig.toml` checks all of it.

1. **Adjacency pass** (`Adjacency`, `Constrain`, `Deferral`, `SwapSearch`, `Ordering`, `OrderingLaws`, `Recent`,
   `SeamLaws`, `Generations`, `Loosening`). A playlist is spaced out on list positions and on wall-clock time at
   once. The early-exit walks refine an all-pairs definition of conflict; the greedy and the in-place swap repair
   refine generic searches over a "blocked" test and an objective, about which the optimisation laws are proved;
   trimmed history is shown to be invisible; and the settings under which clean passes make a clean run are
   characterised.
2. **Playout store** (`Playout`, `EmitLaws`, `ChunkFolder`, `OnAir`, `Readers`, `ChannelCard`). A schedule is
   merged, generation by generation, into chunk files on a time grid. The folder is a class whose files are a map
   from name to items. `Playout.Holds` says a folder holds a flat schedule; emission keeps it over every run, two
   readers recover the schedule from it, and the failure cards put into it can be taken out again without trace.
3. **Set plans** (`SetPlan`, `SetLayout`, `SetValidation`, `SetProblems`, `SetPicture`, `SetSync`, `SetPass`, `SetFilters`,
   `SetBand`, `Frames`). Songs joined by bass swaps, echoes and cuts, with tempo rides, compiled into audio layers and
   picture segments. For every plan the validation accepts, the picture tiles the set, matches the sound at every
   instant, and every song is read once, forwards. Seconds and ratios are `real`.
4. **Chapter plans** (`ChapterPlan`, `ChapterLaws`). Bars of vocals and instrumentals, with the 32-bit counts that wrap.
5. **Small algorithms**: line wrapping (`WrapText`), title markup (`Markup`), the box filter (`Sums`, `BoxShrink`,
   `BoxLaws`, `BoxPixels`), cache eviction (`RenderCache`). `StableSort` is the library sort several of them call,
   and `Common` holds what they all share.

Where the source loops or updates in place, a method with the same loop is proved against a specification
function, and the laws are lemmas about that function.

Some promises turn out to hold only under a condition. Each has a lemma saying exactly when, and a concrete input
where it fails where that is not plain from the condition:

- Clean passes make a clean stream only while limits never loosen (`Loosening.CleanIsEnoughIff`,
  `Loosening.LooseningCanRepeat`): across a seam only the new item's limits apply.
- A wipe rewrites a chunk's name from its last item without clamping it to the slot, so it restores what emission
  would have written only under the condition of `ChannelCard.WipeHoldsIff`. Cards meet it as long as nothing real
  follows them (`ChannelCard.CardsTrail`); after a failed wipe the real schedule is laid after the cards left
  behind, and then they need not (`ChannelCard.WipeBeforeRealCanOverlap`).
- Eviction removes a finished chapter's file by path, so a chapter still to air keeps its file only when the two
  were not written to the same one (`RenderCache.KeepsWhatIsNeededIff`, `RenderCache.SharedOutputIsLost`).
- The incoming song's share of a swap grows only while four times the bars fit 32 bits (`SetPicture.IncomingGrows`,
  `SetPicture.IncomingCanShrink`).
- The box filter computes byte offsets in 32 bits, so it reads and writes every pixel where it belongs only in images
  of at most 2^30 pixels (`BoxLaws.ReadsOwnIff`, `BoxLaws.PaintsOwnIff`).
- The frames of a set exceed its length by one for each span that rounds to nothing (`Frames.FramesMatchIff`).
- A wrapped line can exceed a budget of 3 to 6 characters: the placeholder for empty text is 7 characters long, and
  zero allowed lines still give one (`WrapText.CardFitsIff`, `WrapText.CardLines`).
- A marker with no partner later in the text stays as written, as the comment on the function says, and so does a bold
  one whose first partner follows at once, even if a later one could close it (`Markup.ParseReadsRightly`,
  `Markup.AdjacentPartnerStays`).
- The 18-bar check of a chapter adds in 32 bits, which wraps in a release build; a plan can then be accepted that
  reads past its stems (`ChapterPlan.InRegionIffCountable`, `ChapterPlan.AcceptedCanWrap`).
- So does the running count of bars that places a chapter's layers: one vocal and one instrumental play at every
  bar exactly when every hook's full bars start inside 32 bits (`ChapterPlan.OneOfEachIffStartsFit`,
  `ChapterPlan.TwoVocalsAtOnce`).

## Model

| member | source | states |
|---|---|---|
| Constrain.Violates | crates/etv-station/src/constrain.rs:320-367 | the two early-exit walks answer true exactly when the candidate conflicts, on either axis, with some item already placed or already aired: the all-pairs definition |
| Constrain.AcrossSeam | crates/etv-station/src/constrain.rs:353-366 | the seam half of the walk: true exactly when some aired item conflicts with the candidate under the candidate's own limits |
| Constrain.DurationPrefix | crates/etv-station/src/constrain.rs:416-425 | each entry is the wall-clock span from the head of the list to that position |
| Constrain.ViolationCount | crates/etv-station/src/constrain.rs:430-476 | the early-exit count is the number of conflicting pairs, the seam included, each counted once |
| Constrain.ViolatingPositions | crates/etv-station/src/constrain.rs:482-521 | the list holds, in ascending order, exactly the positions that conflict with a later position or with an aired item |
| Adjacency.ExhaustedBack | crates/etv-station/src/constrain.rs:246-286 | past a reach exhausted on both axes nothing farther back can conflict: what justifies leaving the walk early |
| Adjacency.ExhaustedAhead | crates/etv-station/src/constrain.rs:246-249 | the same looking forward |
| Adjacency.ConflictSymmetric | crates/etv-station/src/constrain.rs:251-269 | conflict does not depend on which of the two items comes first |
| Adjacency.SpanSplit | crates/etv-station/src/constrain.rs:416-425 | elapsed time is additive along the stream |
| Adjacency.ClashFreeMeans | crates/etv-station/src/constrain.rs:8-20 | a stream has no conflict exactly when repeats of an item are farther apart than both settings ask, by position or by the clock, and items sharing a value farther apart in position than both ask |
| Adjacency.ReachIsExact | crates/etv-station/src/constrain.rs:246-249 | a reach is exhausted exactly where no two items could conflict under the limits it comes from |
| Ordering.PickNext | crates/etv-station/src/constrain.rs:207-217 | the candidate taken is the first pending one that is not blocked, else the head of the queue |
| Ordering.DeferringGreedy | crates/etv-station/src/constrain.rs:200-222 | draining the queue yields the greedy order of the specification |
| Ordering.Repair | crates/etv-station/src/constrain.rs:372-410 | the in-place swap repair leaves the array at the specification's repaired order and returns that order's violation count |
| Ordering.ImproveOnce | crates/etv-station/src/constrain.rs:383-403 | one round takes the first strictly improving swap of a listed position with any other, or changes nothing when there is none |
| Ordering.TrySwap | crates/etv-station/src/constrain.rs:393-400 | a swap is kept only when it strictly lowers the count, and undone otherwise |
| Ordering.OrderConstrained | crates/etv-station/src/constrain.rs:186-227 | the order returned is the specified one and `unresolved` is exactly the number of conflicting pairs it leaves |
| OrderingLaws.OrderedPermutes | crates/etv-station/src/constrain.rs:186-227 | the order returned is a permutation of the input indices, and so is the greedy's |
| OrderingLaws.PassKeepsAndSettles | crates/etv-station/src/constrain.rs:372-410 | the repair never leaves more violations than the greedy did; when the greedy left fewer than the round limit, no swap of a violating position with any other lowers the count |
| OrderingLaws.ZeroIsClashFree | crates/etv-station/src/constrain.rs:430-521 | the count is 0 exactly when no pair conflicts, and exactly when no position is listed as violating |
| OrderingLaws.UnforcedIsClashFree | crates/etv-station/src/constrain.rs:207-222 | the greedy is never forced exactly when its order has no violation: one forced step can never be undone by what follows |
| OrderingLaws.UnforcedIsLeastLegal | crates/etv-station/src/constrain.rs:186-227 | with no forced step the result is conflict-free, repair changes nothing, and it is the lexicographically least of all conflict-free permutations |
| OrderingLaws.LegalIsUntouched | crates/etv-station/src/constrain.rs:615-622 | a list that already satisfies its limits comes back as it went in |
| OrderingLaws.GreedyIffTakesFirst | crates/etv-station/src/constrain.rs:200-222 | an order is the greedy one if and only if at every place it takes the first item left that fits, or the first item left when none does |
| OrderingLaws.OrderedByRun | crates/etv-station/src/constrain.rs:372-410 | the order returned ends a run from that greedy order in which each round takes the first swap, by clashing position and then by partner, that leaves fewer violations, until none are left, none helps, or 10,000 rounds have been run |
| SwapSearch.RoundsEndRepaired | crates/etv-station/src/constrain.rs:372-410 | any such run from the same order ends in the same place |
| SwapSearch.RepairSettles | crates/etv-station/src/constrain.rs:372-410 | first-improvement search ends where no swap helps whenever the objective starts below the round limit |
| Deferral.GreedyIffByRule | crates/etv-station/src/constrain.rs:207-215 | the same of the queue alone: the greedy order is the one that takes the first candidate not blocked, or the head when all are |
| Deferral.GreedyTakesLeast | crates/etv-station/src/constrain.rs:207-217 | an unforced greedy takes, at each place, the smallest index any legal arrangement with the same beginning could take |
| Recent.HistoryNeeded | crates/etv-station/src/constrain.rs:288-302 | the count returned keeps everything that can still reach a later item, and nothing that cannot |
| Recent.ConflictsWithRecent | crates/etv-station/src/constrain.rs:309-315 | true exactly when some item of the history conflicts with a candidate airing next |
| Recent.TrimInvisible | crates/etv-station/src/constrain.rs:293-315 | a history trimmed to what is needed answers every check as the full history does |
| Recent.OutOfReachForever | crates/etv-station/src/constrain.rs:288-302 | what is out of reach stays out of reach whatever airs afterwards |
| Recent.RememberTrims | crates/etv-station/src/pattern.rs:1093-1115 | appending a batch to a trimmed window and trimming again keeps exactly what the full history needs |
| Recent.ChannelHistory.Remember | crates/etv-station/src/pattern.rs:1093-1115 | after every batch the window is the end of everything aired, with nothing reachable dropped and nothing unreachable kept |
| Recent.ChannelHistory.Allows | crates/etv-station/src/pattern.rs:1088-1091 | the trimmed window allows a candidate exactly when everything ever aired does |
| SeamLaws.TrimmedHistorySameOrder | crates/etv-station/src/constrain.rs:186-227 | trimming `preceding` to the widest reach of any item leaves the returned order and its violation count identical |
| Generations.CleanPassJudges | crates/etv-station/src/constrain.rs:348-366 | one generation, however its limits differ from earlier ones: its pass is clean exactly when nothing it adds conflicts with anything before it under the new items' own limits, earlier items carrying none |
| Generations.CleanPassIsClashFree | crates/etv-station/src/constrain.rs:348-366 | when no limit is looser than one that aired before it, its pass is clean exactly when nothing it adds conflicts with anything before it under the limits of either |
| Generations.ClashFreeRunIsClean | crates/etv-station/src/constrain.rs:348-366 | whatever the limits do, a stream without a conflict was laid by passes that were all clean |
| Generations.CleanRunIsClashFree | crates/etv-station/src/constrain.rs:348-366 | over any run of generations whose limits never loosen, each pass given the whole stream or its reachable tail: every pass reports 0 unresolved exactly when no two items anywhere in the stream conflict |
| Generations.UniformRunIsClashFree | crates/etv-station/src/constrain.rs:460-473 | the same for one setting shared by every item of every generation |
| Loosening.CleanIsEnoughIff | crates/etv-station/src/constrain.rs:348-366 | for any list of settings, one a generation: every run under them whose passes are all clean is conflict-free if and only if no setting is looser, on either axis, than one before it |
| Loosening.StricterIff | crates/etv-station/src/constrain.rs:251-269 | a setting is at least as strict as an earlier one exactly when the earlier item's own limits never decide a conflict with it |
| Loosening.LooseningCanRepeat | crates/etv-station/src/constrain.rs:348-366 | the smallest case: two clean passes that together air one film twice in a row |
| Playout.HeldUniquely | crates/etv-station/src/emit.rs:15-29 | a schedule determines its chunk files: every name finish and every item list |
| Playout.ItemIsStored | crates/etv-station/src/emit.rs:53-57 | an item is stored, whole, in the chunk of every instant it spans |
| EmitLaws.EmitHolds | crates/etv-station/src/emit.rs:46-90 | merging a generation that joins the schedule leaves every chunk holding exactly the longer schedule's items that meet its slot, in order, named as far as its content reaches and no farther |
| EmitLaws.NothingAhead | crates/etv-station/src/emit.rs:66-70 | a slot that receives nothing means the list is exhausted, so stopping there loses nothing |
| EmitLaws.LayInOrder | crates/etv-station/src/rule.rs:76-89 | laid end to end, items of positive length never overlap |
| EmitLaws.GaplessCovers | crates/etv-station/src/emit.rs:23-29 | a gapless run has an item on air at every instant inside it |
| ChunkFolder.ItemsCovering | crates/etv-station/src/rule.rs:93-122 | the walk with its early break returns, in order, exactly the laid items whose span meets the window |
| ChunkFolder.Folder.Scan | crates/etv-station/src/scan.rs:15-55 | every file once, sorted by start |
| ChunkFolder.Folder.ReadChunkItems | crates/etv-station/src/emit.rs:95-115 | the items stored for the chunk, whatever its name has grown to, or none |
| ChunkFolder.Folder.WriteChunk | crates/etv-station/src/emit.rs:79-84 | the chunk is stored under one name, its content's, and its predecessor is gone |
| ChunkFolder.Folder.RemoveOthers | crates/etv-station/src/emit.rs:121-130 | of the files for one chunk only the one written stays |
| ChunkFolder.Folder.GrowChunk | crates/etv-station/src/emit.rs:49-85 | the cursor's chunk holds what it held followed by the generation's share, or nothing is written when both are empty |
| ChunkFolder.Folder.EmitWindow | crates/etv-station/src/emit.rs:30-90 | the folder afterwards is the specified merge of the generation into every slot from the cursor on |
| OnAir.NameIsHonest | crates/etv-station/src/emit.rs:23-29 | a file's name never claims an instant outside its slot or past its own content |
| OnAir.EveryInstantOnAir | crates/etv-station/src/emit.rs:23-29 | the two-stage lookup: at every instant of a gapless schedule exactly one file's name contains it and exactly one item of that file does |
| OnAir.RunHoldsSchedule | crates/etv-station/src/emit.rs:15-29 | after any run of generations laid end to end, the folder holds exactly the one flat schedule, however files grew, were renamed and duplicated straddlers |
| OnAir.RunIsAlwaysOnAir | crates/etv-station/src/emit.rs:23-29 | at every instant between the first start and the frontier of any such run, one file and one item in it |
| OnAir.BroadcastBounds | crates/etv-station/src/rule.rs:43-54 | the schedule of any run is gapless from the first start to the frontier |
| OnAir.GenerationExtends | crates/etv-station/src/emit.rs:46-90 | one more generation laid from the frontier extends the schedule the folder holds |
| Readers.MergeRecovers | crates/etv-overlay/src/program_context.rs:310-351 | writing and reading undo each other: flattening, sorting and deduplicating the files, in any order of loading, yields exactly the flat schedule |
| Readers.ProgramContextSource.ReloadItems | crates/etv-overlay/src/program_context.rs:310-351 | the items loaded are the merge of every file, hence the flat schedule whenever the folder holds one |
| Readers.ProgramContextSource.PartitionPoint | crates/etv-overlay/src/program_context.rs:357-359 | the binary search returns the first index starting after the instant |
| Readers.ProgramContextSource.CurrentAt | crates/etv-overlay/src/program_context.rs:353-380 | the last started item, the ones on either side of it in the schedule, and the time since its start and to its finish; or unknown when it is over |
| Readers.LastStartedIsOnAir | crates/etv-overlay/src/program_context.rs:353-380 | on an ordered schedule the last started item is on air exactly when a linear scan finds it on air |
| Readers.ReportTells | crates/etv-overlay/src/program_context.rs:353-380 | what is reported is on air, next is the first item to start after the instant and previous the last to have finished by it, and each is missing only when there is none |
| Readers.NeighboursMeet | crates/etv-overlay/src/program_context.rs:368-378 | on a gapless schedule next starts as the item finishes and previous finishes as it starts, and each is missing only at an end of the schedule |
| Readers.DedupStrict | crates/etv-overlay/src/program_context.rs:336-348 | on sorted items whose twins are equal, deduplication keeps every item exactly once |
| Readers.RetainUnseen | crates/etv-station/src/audit_report.rs:112-115 | of equal id and start only the first is kept |
| Readers.FirstsAre | crates/etv-station/src/audit_report.rs:112-115 | what is kept stands at ascending places of the list, each the first with its id and start, and every such first is kept |
| Readers.Upcoming | crates/etv-station/src/audit_report.rs:81-119 | the report is exactly the first items of the flat schedule that finish after the instant, although whole files are skipped by name |
| ChannelCard.CardRunCovers | crates/etv-station/src/channel_card.rs:66-100 | the card run is gapless, starts at the end of everything written and reaches past the window |
| ChannelCard.IsCardIff | crates/etv-station/src/channel_card.rs:48-50 | a card is told by the 24 characters its id begins with |
| ChannelCard.CardsDiffer | crates/etv-station/src/channel_card.rs:66-100 | the cards of a run have ids of their own and carry the reason |
| ChannelCard.HighestFinish | crates/etv-station/src/scan.rs:72-90 | opening only the last file still finds the end of the whole schedule |
| ChannelCard.CoverAfterWritten | crates/etv-station/src/channel_card.rs:59-105 | nothing is written when the schedule reaches past the window; otherwise one card run is merged in from the end of it, and that instant returned |
| ChannelCard.CoverKeepsSchedule | crates/etv-station/src/channel_card.rs:52-58 | the folder then holds the schedule it held followed by the cards |
| ChannelCard.RewriteChunk | crates/etv-station/src/channel_card.rs:150-174 | the kept items go back under the name their last finish gives, or the file goes when none are kept |
| ChannelCard.WipeFile | crates/etv-station/src/channel_card.rs:120-143 | one file loses exactly its cards at or after the instant, and the number dropped is returned |
| ChannelCard.WipeCardsFrom | crates/etv-station/src/channel_card.rs:114-145 | every file loses exactly its cards at or after the instant; the count is the number of stored copies dropped |
| ChannelCard.WipeHoldsIff | crates/etv-station/src/channel_card.rs:147-174 | the wiped folder is what emission would have written for the surviving schedule exactly when no file that loses a card keeps, last, an item running past its own slot: the rewritten name is not clamped to the boundary |
| ChannelCard.TrailKeepsWithinSlots | crates/etv-station/src/channel_card.rs:15-18 | cards written after everything real always meet that condition |
| ChannelCard.WipeBeforeRealCanOverlap | crates/etv-station/src/daemon.rs:1709-1714 | with something real after a card it need not hold: of a film to 3000 s, a card to 3300 s and a show to 3900 s on an hourly grid, a wipe at 2000 s names the first hour's file past its hour, and at 3700 s two files claim to be on air |
| ChannelCard.StraddledIsWritten | crates/etv-station/src/daemon.rs:1709-1714 | and that is the very folder written when the film is laid, the channel is covered past its end, the wipe fails and the show is laid after the card |
| ChannelCard.OutageHolds | crates/etv-station/src/daemon.rs:1687-1707 | through any number of refreshes and wipes, in any order and at any instants, the folder holds what was stored before, untouched, followed by cards |
| ChannelCard.WipeKeepsStarted | crates/etv-station/src/daemon.rs:1687-1700 | a wipe at any instant leaves the schedule followed by exactly the cards that had started by then |
| ChannelCard.WipeUndoesOutage | crates/etv-station/src/channel_card.rs:107-145 | after any outage, a wipe at any instant leaves the schedule followed by the cards that had started, and restores every chunk exactly if and only if none had |
| ChannelCard.WipeRestoresFiles | crates/etv-station/src/channel_card.rs:107-145 | refreshing any number of times and then wiping, at or before the first instant returned, where no earlier card is reached, restores every file name and item list |
| ChannelCard.WipeFromFirstRestores | crates/etv-station/src/channel_card.rs:107-145 | and wiping from the first instant returned restores them whatever was stored |
| SetPlan.RideEndsNative | crates/etv-render/src/set.rs:109-120 | the last bar of a tempo ride plays at the song's own tempo |
| SetPlan.RideMeans | crates/etv-render/src/set.rs:95-120 | a song rides over its ride bars unless it enters at its own tempo, and its ratio moves to 1 in equal steps, one a bar of the file |
| SetLayout.PlayedPicture | crates/etv-render/src/set.rs:266-297 | one segment per ride bar from where the song enters, then one for the rest, as the specification lays them |
| SetLayout.LaySeam | crates/etv-render/src/set.rs:476-617 | one seam's layers, segments and hand-over time for each recipe |
| SetLayout.LayOut | crates/etv-render/src/set.rs:470-649 | the walk compiles exactly the specified layers, sorted segments, seam times and duration |
| SetFilters.EveryLayerHasRole | crates/etv-render/src/set.rs:504-633 | the layers compiled are one full-band layer for each song from the instant it plays alone, a tail and a lead-in for each bass swap and a bar for each echo, each with exactly its own filters, fades and delay |
| SetFilters.SweptIffAsked | crates/etv-render/src/set.rs:520-537 | a layer has a low-pass exactly when it is the outgoing song of a swap that asks for a sweep, from the instant the next one plays alone |
| SetFilters.EveryLayerFadesOut | crates/etv-render/src/set.rs:504-633 | bass is cut at 250 Hz and treble at 1200 Hz, and every layer has one fade-out, which ends with it |
| SetValidation.Validate | crates/etv-render/src/set.rs:317-466 | the first problem in the order the checks are made, or none |
| SetValidation.AcceptedIffSound | crates/etv-render/src/set.rs:317-466 | a plan is accepted exactly when it meets everything the layout theorems rely on and its cards fall inside the set in order |
| SetProblems.ReportedIffFirst | crates/etv-render/src/set.rs:317-466 | a problem is the one reported if and only if the plan has it, in the plan's own fields, and has none that is looked for sooner |
| SetProblems.AcceptedIffNothingWrong | crates/etv-render/src/set.rs:317-466 | a plan is accepted if and only if none of the nineteen things that can be wrong with one is |
| SetProblems.BeatsLocked | crates/etv-render/src/set.rs:406-413 | at every bass swap of an accepted plan the incoming song's bars at its ratio are as long as the outgoing song's to within two thousandths |
| SetPicture.PictureTiles | crates/etv-render/src/set.rs:240-241 | for every validated plan the pushed segments are already sorted, all last, and tile the set from 0 to its duration with no gap or overlap |
| SetPicture.OneOnScreen | crates/etv-render/src/set.rs:240-241 | exactly one segment of a tiling is on screen at each instant |
| SetPicture.IncomingGrows | crates/etv-render/src/set.rs:552-574 | in each bar of a swap the incoming song has one to four beats; its share never shrinks, and ends with at least three, exactly when the seam has fewer than 2^31 bars |
| SetPicture.IncomingCanShrink | crates/etv-render/src/set.rs:552-574 | it can shrink: an accepted plan with a swap of 2^31 bars, where it has the whole of one bar and one beat of the next |
| SetPicture.SwapTiles | crates/etv-render/src/set.rs:552-574 | the bar by bar cutting of a swap tiles it exactly |
| SetSync.PictureInStep | crates/etv-render/src/set.rs:266-297 | for every validated plan and every instant of every segment on screen, some audio layer then sounding plays that very source position of that song |
| SetSync.RideMatches | crates/etv-render/src/set.rs:266-297 | picture and sound agree at every instant of every ride bar |
| SetSync.OutgoingInStep | crates/etv-render/src/set.rs:558-565 | the outgoing song's cuts match its own layer, which plays through half the swap |
| SetSync.IncomingInStep | crates/etv-render/src/set.rs:566-572 | the incoming song's cuts match its bass-less lead-in |
| SetSync.RestInStep | crates/etv-render/src/set.rs:576-606 | past the ride the picture matches the song's own layer, or its echoing last bar once that layer has ended |
| SetPass.SongReadOnce | crates/etv-render/src/set.rs:504-633 | each song's file is read as one unbroken forward pass: lead-in up to the entry, body, then tail or echo from exactly where the body stopped, starting no earlier than the file does |
| SetPass.ReadsWhatItPlays | crates/etv-render/src/set.rs:219-227 | the stated source length of a layer is the distance it plays, ride included |
| SetPass.OnlyEchoesOutlast | crates/etv-render/src/set.rs:383-405 | every layer starts in the set and lasts; all but echoes end within 1e-9 s of the set's end |
| SetPass.TailFits | crates/etv-render/src/set.rs:387-405 | the incoming song plays alone at least as long as the tail laid over it |
| SetPass.ClosingFadeFits | crates/etv-render/src/set.rs:425-440 | the last layer ends with the set and has room for the whole closing fade |
| SetBand.OneSongAndItsEchoes | crates/etv-render/src/set.rs:504-633 | at every instant the layers without a high-pass are one song and one more for each echo still ringing |
| SetBand.OneBandIffNoEcho | crates/etv-render/src/set.rs:576-606 | exactly one layer keeps its bass at every instant exactly when no seam is an echo |
| Frames.FramesMatchIff | crates/etv-render/src/video.rs:30-37 | over a validated set the frames held are the set's rounded length plus one for each span that rounds to nothing, so they match exactly when there is none |
| Frames.FrameLongSpans | crates/etv-render/src/video.rs:33-37 | a span of at least a frame never rounds to nothing |
| Frames.FramesCanExceed | crates/etv-render/src/video.rs:33-37 | the frames need not match: an accepted plan of 60 frames gets 61 |
| WrapText.Sanitize | crates/etv-station/src/error_card.rs:208-225 | what survives is the text's printable words, single-spaced, in order |
| WrapText.MaskedMeans | crates/etv-station/src/error_card.rs:208-225 | a letter, digit, space or one of `.-_()` stays where it is and any other character leaves a space |
| WrapText.CardIsPlain | crates/etv-station/src/error_card.rs:194-207 | whatever the text, no line shown holds a character that has a meaning in a filter's syntax |
| WrapText.MaxCharsMeans | crates/etv-station/src/error_card.rs:66-70 | a line is as many characters as the usable width holds, and no more; one at the least |
| WrapText.WordsOfJoin | crates/etv-station/src/error_card.rs:252-256 | splitting single-spaced words gives them back |
| WrapText.Fill | crates/etv-station/src/error_card.rs:256-291 | the loop fills the lines the greedy specification does, long words cut into lines of their own |
| WrapText.HardSplit | crates/etv-station/src/error_card.rs:260-272 | a word longer than a line becomes full lines and a remainder that waits for the next word |
| WrapText.Wrap | crates/etv-station/src/error_card.rs:252-310 | the lines returned are the specified card |
| WrapText.FilledIsLeast | crates/etv-station/src/error_card.rs:274-288 | no wrapping of the same words into lines that fit uses fewer lines |
| WrapText.LaidReadsBack | crates/etv-station/src/error_card.rs:274-288 | however the words are wrapped, the lines joined by spaces are the text |
| WrapText.CardLines | crates/etv-station/src/error_card.rs:247-251 | never nothing, and never more lines than asked for, one at the least |
| WrapText.CardFitsIff | crates/etv-station/src/error_card.rs:293-309 | every line fits exactly when the width has room for what is not the text's own: 3 characters for the ellipsis if lines are dropped, 7 for the placeholder if there is nothing to show |
| WrapText.ReasonFits | crates/etv-station/src/error_card.rs:177-187 | on the card's own reason line every text fits |
| WrapText.CutOnlyWhenForced | crates/etv-station/src/error_card.rs:247-251 | when every word fits a line, text is cut exactly when no wrapping into the allowed lines exists, and then ends in the ellipsis; otherwise the words read back in full |
| WrapText.CutShowsTheStart | crates/etv-station/src/error_card.rs:293-303 | when there are too many lines the first are shown as they are and as much of the last one allowed as leaves room for the ellipsis |
| WrapText.PiecesAreFull | crates/etv-station/src/error_card.rs:259-272 | every piece a long word is cut into but the last is as long as a line |
| WrapText.LettersSurvive | crates/etv-station/src/error_card.rs:259-273 | hard-splitting loses no letter and reorders none unless lines are dropped |
| Markup.ParseMarkup | crates/etv-overlay/src/vello_renderer.rs:80-114 | the loop returns the text drawn and the spans of the specified reading |
| Markup.MarkupRestores | crates/etv-overlay/src/vello_renderer.rs:77-79 | spans are ordered, disjoint, non-empty and in bounds, and putting the markers back around them gives the content exactly |
| Markup.OnlyMarkersRemoved | crates/etv-overlay/src/vello_renderer.rs:77-79 | the content is as long as the text drawn and two markers for each span |
| Markup.ParseReadsRightly | crates/etv-overlay/src/vello_renderer.rs:97-110 | a span closes at its first partner, a single marker is left as written only when no asterisk follows, and a bold one only when its first partner is missing or follows at once, as in `****a**` |
| Markup.AdjacentPartnerStays | crates/etv-overlay/src/vello_renderer.rs:97-110 | `****a**` is read as a marker left as written and a bold letter |
| Markup.OnlyReading | crates/etv-overlay/src/vello_renderer.rs:80-114 | that reading is the only one: any pieces that spell the content and obey the rule are the ones returned |
| BoxShrink.GatherRow | crates/etv-overlay/src/vello_renderer.rs:1119-1146 | a row's window with its skips gathers what the whole row would |
| BoxShrink.GatherPixel | crates/etv-overlay/src/vello_renderer.rs:1112-1148 | an output pixel's window gathers what the whole source would give it |
| BoxShrink.Shrink | crates/etv-overlay/src/vello_renderer.rs:1091-1182 | the buffer returned is the specified one: every pixel with any weight settled, in row order, at its 32-bit offset, and the rest clear |
| BoxLaws.PaintsOwnIff | crates/etv-overlay/src/vello_renderer.rs:1171-1175 | whatever the source, every output pixel is in its own place and the average of the whole source exactly when the output has at most 2^30 pixels |
| BoxPixels.BytesAreAverages | crates/etv-overlay/src/vello_renderer.rs:1150-1175 | every byte of the output is within one half of its own channel's average over the source it covers, colours of straight alpha with the average alpha taken back out |
| BoxPixels.OneColourStays | crates/etv-overlay/src/vello_renderer.rs:1150-1175 | a source all of one opaque pixel shrinks to that pixel everywhere |
| BoxPixels.ShareIsCommonLength | crates/etv-overlay/src/vello_renderer.rs:1188-1191 | a share is the length a source pixel and an output pixel have in common |
| BoxLaws.ReadsOwnIff | crates/etv-overlay/src/vello_renderer.rs:1129-1135 | whatever it holds, every source pixel is read where it is stored exactly when there are at most 2^30 of them |
| BoxShrink.WindowInside | crates/etv-overlay/src/vello_renderer.rs:1099-1110 | a window lies inside the source and is empty only when the source is |
| BoxLaws.SharesOfOutput | crates/etv-overlay/src/vello_renderer.rs:1188-1191 | the source pixels' shares of an output pixel come to its width in source pixels |
| BoxLaws.SharesOfSource | crates/etv-overlay/src/vello_renderer.rs:1188-1191 | a source pixel's shares over all the output come to one |
| BoxLaws.EveryPixelWeighsTheSame | crates/etv-overlay/src/vello_renderer.rs:1135-1144 | each output pixel's total weight is the source area it stands for |
| BoxLaws.EveryChannelConserved | crates/etv-overlay/src/vello_renderer.rs:1085-1090 | alpha, premultiplied colour and weight summed over the output pixels are what they were over the source pixels as read |
| BoxLaws.TransparentColoursIgnored | crates/etv-overlay/src/vello_renderer.rs:1085-1090 | images that agree except in the colour of fully transparent pixels shrink to the same image |
| BoxLaws.ColoursStayInRange | crates/etv-overlay/src/vello_renderer.rs:1150-1174 | un-premultiplied colours and alpha lie in 0 to 255 before any clamp |
| RenderCache.AiredIff | crates/etv-render/src/cache.rs:63-83 | a chapter has finished airing exactly when its air time and its last second are both past |
| RenderCache.ProtectedIff | crates/etv-render/src/cache.rs:62-73 | a chapter is off limits without an air time, and from half an hour before it airs until it has finished |
| RenderCache.UsedGrows | crates/etv-render/src/cache.rs:85-101 | the bytes in use are those of every done chapter's file there is and of every stem directory |
| RenderCache.Cache.RemoveStems | crates/etv-render/src/cache.rs:121-130 | exactly the directories named that can be removed go, and the running total falls by exactly their bytes |
| RenderCache.Cache.EvictOne | crates/etv-render/src/cache.rs:159-169 | one chapter and the stems it leaves unreferenced go, and the running total falls by its own file and those stems: never below the true bytes, and equal to them when outputs are distinct |
| RenderCache.Cache.EnforceCap | crates/etv-render/src/cache.rs:103-182 | under the cap nothing changes; over it the store and the ids returned are those of the specified walk on the running total |
| RenderCache.JobBytesWithout | crates/etv-render/src/cache.rs:164-168 | evicting one chapter lowers the bytes of outputs by what every done chapter counted for its file |
| RenderCache.TotalIsTrue | crates/etv-render/src/cache.rs:164-170 | throughout a walk the running total is never below the bytes in use, and is exactly them when no two jobs share an output |
| RenderCache.EvictsOldestAired | crates/etv-render/src/cache.rs:150-170 | what goes is the shortest run, oldest air time first, of the finished chapters that can be removed; still over the cap at the end means none is left |
| RenderCache.CandidateFacts | crates/etv-render/src/cache.rs:152-158 | the candidates are exactly the done chapters that have finished airing, each once, by air time and then as the queue lists them |
| RenderCache.EvictionIsSafe | crates/etv-render/src/cache.rs:1-8 | every chapter but those done and past their last second keeps its status, no file goes but the output of one of those, no stems go of a chapter queued, running or done, none go while one is queued or running, and otherwise no removable orphan is left |
| RenderCache.KeepsWhatIsNeededIff | crates/etv-render/src/cache.rs:1-8 | a chapter that has not finished airing keeps its bytes under every cap if and only if no chapter that has finished was written to the same file |
| RenderCache.SharedOutputIsLost | crates/etv-render/src/cache.rs:155-169 | two done chapters on one file, one long aired and one with no air time: the second can lose its file |
| ChapterPlan.ValidateHooks | crates/etv-render/src/plan.rs:136-184 | the first problem among the tempo and hook checks, in order, with the count of bars in 32-bit arithmetic |
| ChapterLaws.ReportedIffFirst | crates/etv-render/src/plan.rs:136-184 | a problem is the one reported if and only if the chapter has it, in its own fields, and has none that is looked for sooner; and it is accepted if and only if it has none |
| ChapterPlan.AcceptedUses | crates/etv-render/src/plan.rs:177-183 | the 18-bar check holds of the true counts exactly when they do not wrap |
| ChapterPlan.Layers | crates/etv-render/src/audio.rs:56-170 | the loop lays exactly the specified layers and returns the chapter's 32-bit bar count |
| ChapterPlan.OneOfEachIffStartsFit | crates/etv-render/src/audio.rs:5-7 | in an accepted chapter exactly one vocal and exactly one instrumental layer play at every bar, and none past the end, if and only if every hook's full bars start at a bar that fits a 32-bit count |
| ChapterPlan.TwoVocalsAtOnce | crates/etv-render/src/audio.rs:56-170 | the count can wrap: an accepted plan of three hooks with two vocals at bar 1 |
| ChapterLaws.EveryBarPlaysRight | crates/etv-render/src/audio.rs:56-170 | at every bar of a chapter whose starts fit: the vocal is the hook's, from its landing on; the instrumental is the previous song's, from the bar where its own ended, until the hook's own takes over at the vocal's bar |
| ChapterLaws.ReadsItsBars | crates/etv-render/src/audio.rs:107-126 | a layer is read at its bars of the song, counted from four before the landing, at the song's own tempo |
| ChapterPlan.StemReadOnceIff | crates/etv-render/src/audio.rs:107-126 | each hook's vocal or instrumental is one unbroken read, the instrumental continuing into the next seam at the bar where it stopped, exactly when its bars of the stem and of the chapter are counted without wrapping between its layers |
| ChapterPlan.StartsFitCounts | crates/etv-render/src/audio.rs:107-126 | which holds of every hook of a chapter whose starts fit |
| ChapterPlan.InRegionIff | crates/etv-render/src/stems.rs:33-39 | a layer lies inside the separated slice exactly when it ends by bar 18 after the landing |
| ChapterPlan.InRegionIffCountable | crates/etv-render/src/plan.rs:177-183 | no layer of an accepted chapter reads outside the 22 separated bars exactly when no hook's bars wrap a 32-bit count |
| ChapterPlan.AcceptedCanWrap | crates/etv-render/src/plan.rs:177-183 | they can: an accepted plan whose stem is read four thousand million bars past its end |
| ChapterPlan.KeepsToTheBars | crates/etv-render/src/audio.rs:47-52 | stretched to the chapter's tempo, a layer keeps to the chapter's bars within the tolerance per bar |

## Left out

- Files that fail to read, parse, write or be removed: the folder operations of `emit.rs`, `channel_card.rs`, `program_context.rs` and `audit_report.rs` succeed here, so stale duplicates and partial runs do not arise. Failed removals are modelled in `RenderCache` only; a wipe that fails before it changes anything is the absence of a `Cleared` event.
- The time grid: local-time chunk boundaries (`tz.rs`) are an abstract floor and next boundary, assumed strictly increasing; daylight-saving days of zero-length chunks are not modelled.
- Items of zero length in a generation: a run lays items of positive length.
- OnAir.RunIsAlwaysOnAir: says nothing of instants before the first generation starts, where the first file's name already begins.
- Seconds lost to floating-point rounding: `f64` is `real` and `Duration` an unbounded `nat`, with the code's explicit tolerances kept; the cache's instants and lengths are `real` seconds; values that are not finite cannot be written down.
- The other readers of `program_context.rs`: polling file times, titles, credits and overlay metadata of an item are one opaque `detail`.
- SetLayout.LayOut: names of layers and the text of filters are left out, and filters are a datatype.
- SetPass.OnlyEchoesOutlast: an echo may run past the end of the set, where the mix cuts it; how far is not claimed.
- Cards, output path and JSON of a chapter plan, and its cuts, whose gaps may be up to 0.05 s, so their frames do not add up exactly.
- ChapterPlan.Layers: levels, fades and pitch of a layer are left out.
- Markup.ParseMarkup: text is bytes, spans are byte offsets; the slant and weight drawn for a span are left out.
- BoxShrink.Shrink: a buffer holds pixels rather than four bytes each, found at the byte offset the code computes, and accumulators are exact.
- WrapText.Wrap: works from a width in characters; the 32-bit rounding of the glyph width is left out, and `clamp_to_width` is not modelled.
- RenderCache.Cache.EnforceCap: a directory either goes whole or stays; crashes between removing a file and recording it are not modelled.
- The schedule's own resolution (queries, pools, calendars, Rhai and CEL expressions), HTTP, ffmpeg and the filter graphs: foreign calls and plumbing.
