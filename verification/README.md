# MIDI file, lighting and library services: a Dafny model

The repository is a MIDI control server for a small computer. It stores MIDI
files, adapts them to physical instruments by "baking" controller events into
them, plays them, and drives lights and browser displays on the side. This
project models the parts of it whose guarantees span several functions or whole
runs, and proves those guarantees for all inputs.

How the modules fit together:

- `Midi` holds tracks as delta-time events and as absolutely timed ones.
  `StableSort` states what the JavaScript sort promises (section 23.1.3.30 of
  ECMA-262, 2023: ordered, a permutation, stable), and that this fixes the
  result. `Wrappers`, `LittleEndian` and `Sequences` are shared vocabulary.
- **Baking.** `NoteBalance` (disabled notes and the validator's orphan count),
  `TrackMerge` (stripping, merging, sorting, new delta times), `MergedEvents` (what
  becomes of single events), `Rebake` (merging again), `Bake` (whole files),
  `TempoMap` (ticks and seconds), `Metadata` (the upload's own tempo walk),
  `HandPlacement` (controllers next to notes).
- **Lighting.** `LightingRules` (matching, held notes), `LightingFilters` (which event
  does what, field by field), `LightingDispatch` (the bounded queue and its manager),
  `LightingRuns` (whole runs), `LightingSafety` (no light stays on),
  `LightingStranded` (which lights do), `LightingRanges` (several rules on one device).
- **Lock.** `FileWriteLock` (promise chains, timers and clean-up as steps),
  `LockedUpdates` (read-modify-write under the lock).
- **Codecs and lexers.** `PresetCodec`, `SqlSplitter`, `Sf2Structure`.
- **Stores and queues.** `WsOutputQueue`, `Playlist`, `InstanceCache`,
  `FileLibrary`.

Stateful parts are classes whose methods follow the program's steps. Each method
is proved equal to a function on values, and the theorems are about those
functions and about runs of them. Where a definition serves code and reference
alike (units, filters, byte layouts, limits, forms of an event), a law states its
meaning in plain fields and numbers.

Where the code promises less than its surroundings suggest, the model follows
the code:

- A zero tempo is skipped by the baker but not by the upload's metadata. The two
  durations agree exactly when no zero tempo is in force before the end
  (`Metadata.DurationMatchesBaker`).
- The merge sorts controllers before notes within a tick; all other events, such
  as program changes, follow the notes (`TrackMerge.NotesPrecedeOthers`). So a class
  of events that the merge neither adds nor strips keeps its order if and only if none
  stands before a lower-ranked one of its tick (`TrackMerge.MergeReordersExactly`); a
  program change in front of its note does not (`TrackMerge.ProgramChangeFallsBehind`).
- A blackout drops queued releases and keeps the held-note counters. It does harm if
  and only if a counter is above what sounds (`LightingSafety.BlackoutExactly`); such
  a light comes on again with every later key of its rule and stays on after the
  release (`LightingStranded.GoesDarkExactly`, `LightingStranded.BlackoutCanStrandALight`).
  A queue full of releases that overflows has the same effect
  (`LightingSafety.OverflowExactly`, `LightingStranded.OverflowCanStrandALight`).
- The rules of a device share its counters, and the last release switches off the LEDs
  of its own rule only. With rules that each have a key of their own, the device goes
  dark if and only if they light the same LEDs (`LightingRanges.RangesExactly`,
  `LightingRanges.SplitKeyboardStaysLit`).
- A waiter whose timer fires goes on without the lock. Exclusion in acquire order
  holds if and only if no timer fires before the earlier tickets of its key are
  released (`FileWriteLock.ExclusionExactly`); one that does can cost an update
  (`LockedUpdates.TimeoutLosesUpdate`).
- The preset format's header comment says version 1, its code writes and accepts
  2. Sample offsets pass through a signed 32-bit conversion, which is where the
  round trip ends (`PresetCodec.RoundTripExactly`).
- An informational event that arrives at a queue full of critical ones pushes a
  critical one out (`WsOutputQueue.CriticalsSurvive`). Under lag a small depth
  limit grows to 50 instead of shrinking (`WsOutputQueue.LagOutgrowsLimit`).
- Dropping a comment from SQL text can form a new comment, so splitting is not
  idempotent (`SqlSplitter.SplitTwice`, `SqlSplitter.DroppingFormsComment`). A
  statement that ends in a minus directly before a line comment loses the minus
  (`SqlSplitter.SplitKeeps`, `SqlSplitter.CommentTakesMinus`).
- Inserting or reordering a playlist item to a position outside the list is
  accepted and breaks the numbering (`Playlist.AddAppends`, `Playlist.ReorderExactly`).
- Baking, replacing and deriving a file leave a new blob behind when a late step
  fails; uploading and saving do not (`FileLibrary.StepLeavesOrphan`).

## Model

| member | source | states |
|---|---|---|
| StableSort.SortMeetsStandard | src/files/MidiBaker.js:738-741 | the sort the merge relies on orders by key, permutes, and keeps the order inside every class of equal keys |
| StableSort.StableSortIsUnique | src/files/MidiBaker.js:738-741 | any result a standard sort may return is the same one, so nothing below depends on the engine |
| StableSort.SortPrefixFirst | src/files/MidiBaker.js:738-741 | sorting a prefix beforehand does not change a stable sort of the whole, which is why re-baking can be compared with baking once |
| StableSort.FilterOfSort | src/files/MidiBaker.js:738-741 | any selection of events comes out of the sort as it would come out of sorting the selection alone |
| Midi.AbsoluteOfRelative | src/files/MidiBaker.js:743-750 | absolute ticks survive being turned into deltas |
| Midi.RelativeOfAbsolute | src/files/MidiBaker.js:701-711 | and deltas survive being accumulated to ticks: the two representations carry the same track |
| Midi.AbsoluteIsOrdered | src/files/MidiBaker.js:704-711 | non-negative deltas give non-decreasing ticks, none beyond the end of the track |
| NoteBalance.CollectDisabledEvents | src/files/MidiBaker.js:159-186 | the scan with its counter map finds exactly the disabled note-ons and, one at a time, the note-offs owed to them |
| NoteBalance.DisablingKeepsBalance | src/files/MidiBaker.js:159-186 | after every prefix of a track: pending releases are among the sounding notes, and what the survivors leave sounding is what the track leaves sounding minus the pending |
| NoteBalance.DropsPairUp | src/files/MidiBaker.js:171-183 | per channel and note, every disabled note-on takes one note-off with it or is still waiting for one |
| NoteBalance.RestSurvives | src/files/MidiBaker.js:164-184 | everything that is neither a disabled note-on nor a note-off survives, in order |
| NoteBalance.NothingDisabledNothingDropped | src/files/MidiBaker.js:161-184 | with nothing disabled among its notes a track loses nothing |
| NoteBalance.SurvivorsAreEnabled | src/files/MidiBaker.js:171-177 | no surviving event is a disabled note-on |
| NoteBalance.CountOrphans | src/files/MidiFileValidator.js:94-192 | the validator's nested loops count the note-ons left sounding, summed over tracks and keys |
| NoteBalance.SoundMirrored | src/files/MidiFileValidator.js:159-184 | its map of positive counts, with keys deleted at zero, is the multiset of sounding notes, and stays positive |
| NoteBalance.ActiveByFields | src/files/MidiFileValidator.js:159-184 | what sounds, key by key, is what a count over the event fields gives: a note-on above velocity 0 adds one, a note-off or a note-on at velocity 0 takes one, never below zero |
| NoteBalance.DroppedByFields | src/files/MidiBaker.js:166-183 | an event is dropped if and only if it strikes a disabled tick and note of its channel, or releases a note while a release of that channel and note is pending |
| NoteBalance.ReleaseFormsAgree | src/files/MidiBaker.js:166-168 | a note-off and a note-on at velocity 0 can stand for each other anywhere in a track: what sounds, what is pending and what is dropped stay the same |
| NoteBalance.StrikeAndRelease | src/files/MidiFileValidator.js:159-184 | a strike and then a release of either form leave what sounds as it was |
| NoteBalance.StrikeAndReleaseDropped | src/files/MidiBaker.js:171-183 | both are dropped if the strike was disabled and no release was pending, and neither if it was not |
| TrackMerge.CompareIsKeyOrder | src/files/MidiBaker.js:737-741 | the comparator is the order of one integer key, hence consistent as a sort demands |
| TrackMerge.ExpandTrack | src/files/MidiBaker.js:694-711 | the expansion keeps exactly the events neither dropped nor controllers on an owned pair, at their absolute ticks |
| TrackMerge.MergeEventsIntoTrack | src/files/MidiBaker.js:686-751 | the loops compute the specified merge |
| TrackMerge.RecomputeDeltas | src/files/MidiBaker.js:743-750 | the rebuilt deltas are the distances of the sorted ticks |
| TrackMerge.MergeIsPermutation | src/files/MidiBaker.js:686-751 | besides end-of-track, the merged track holds exactly the surviving events at their old ticks and the new controllers at theirs, each as often as before |
| TrackMerge.MergeKeepsDeltasNonNegative | src/files/MidiBaker.js:743-750 | non-negative deltas in, non-negative deltas out, adding up to the sorted ticks |
| TrackMerge.ControllersPrecedeNotes | src/files/MidiBaker.js:735-741 | a controller stands before every note event of the same or a later tick |
| TrackMerge.NotesPrecedeOthers | src/files/MidiBaker.js:735-741 | and every note event before the other events, end-of-track aside, of the same or a later tick |
| TrackMerge.MergeKeepsClassExactly | src/files/MidiBaker.js:686-751 | a class of events without end-of-track and owned controllers comes out of the merge in its old order, none lost or added, if and only if it was in order of tick and rank |
| TrackMerge.MergeReordersExactly | src/files/MidiBaker.js:686-751 | with non-negative deltas: if and only if none of them stands before a lower-ranked one on the same tick |
| TrackMerge.ProgramChangeFallsBehind | src/files/MidiBaker.js:735-741 | a program change and its note on one tick change places, whatever controllers are merged |
| TrackMerge.MoveEotKeepsOthers | src/files/MidiBaker.js:729-733 | moving end-of-track touches no other event |
| MergedEvents.MergedContents | src/files/MidiBaker.js:686-751 | how many events with a given tick and content the merged track has: on a baked channel and controller as many as the list has entries with these four fields, of everything else as many as the track had outside the dropped indices |
| MergedEvents.BakedInOrder | src/files/MidiBaker.js:714-741 | on each baked channel and controller the merged track has the entries of the list, values included, in stable order of their ticks |
| Rebake.EotIsLast | src/files/MidiBaker.js:725-741 | a single end-of-track ends up strictly last, at the greatest tick |
| Rebake.MergeTwiceIsMergeOnce | src/files/MidiBaker.js:686-751 | merging the same controllers into a merged track again returns that track |
| Rebake.LaterMergeCombines | src/files/MidiBaker.js:686-699 | merging list A and then any list B is merging once the part of A on pairs B does not own, and B: that part is what stays behind |
| Rebake.LaterMergeReplaces | src/files/MidiBaker.js:686-699 | so a list B that owns every pair of list A replaces A: the result is what B alone gives, end-of-track aside |
| Rebake.LaterMergeEotTick | src/files/MidiBaker.js:729-733 | and end-of-track then sits at the later of the two ends |
| Rebake.BaseOfMerged | src/files/MidiBaker.js:694-710 | stripping a merged track of the owned controllers gives back the sorted rest, end-of-track moved |
| Bake.BakeOne | src/files/MidiBaker.js:94-102 | one track of the bake: untouched when there is nothing to add or remove, and its two counters |
| Bake.BakeFile | src/files/MidiBaker.js:92-113 | the track loop bakes every track with its own controllers and sums what was added and removed |
| Bake.BakedContents | src/files/MidiBaker.js:92-102 | the same for every track of a file, with the list of that track, if it has one, and the disabled notes |
| Bake.MergeKeepsNotes | src/files/MidiBaker.js:686-751 | hence the merge neither reorders, adds nor loses note events |
| Bake.BakedBalance | src/files/MidiBaker.js:94-102 | baking never creates a stuck or orphan note: per channel and note, the baked track leaves sounding what the original did, less the disabled notes that never got a release |
| Bake.BakingNeverAddsOrphans | src/files/MidiFileValidator.js:189-192 | the validator's orphan count of a file never rises through baking, for any controllers and overrides |
| Bake.MergedNotesAreEnabled | src/files/MidiBaker.js:86-102 | no disabled note is left in the merged track |
| Bake.BakeTrackIsIdempotent | src/files/MidiBaker.js:94-102 | baking a baked track with the same inputs changes nothing |
| Bake.BakeIsIdempotent | src/files/MidiBaker.js:92-102 | nor does baking a baked file |
| TempoMap.PositiveTempos | src/files/MidiBaker.js:199-213 | collects the positive tempo events of a track at absolute ticks |
| TempoMap.BuildTempoMap | src/files/MidiBaker.js:196-251 | the built map represents the file's positive tempos: it starts at tick 0 and time 0, ticks increase strictly, each entry's time is the reference time of its tick, and each segment carries the tempo in force (RP-001, Set Tempo; 120 BPM before the first) |
| TempoMap.WalkTempos | src/files/MidiBaker.js:216-250 | the walk over sorted events keeps this after every event, including several on one tick |
| TempoMap.InForceOfSort | src/files/MidiBaker.js:214-214 | sorting changes no tempo in force, so several tempos on one tick resolve to the last in file order |
| TempoMap.ActiveTempoEntry | src/files/MidiBaker.js:263-277 | the binary search returns the rightmost entry not above the value, entry 0 when there is none |
| TempoMap.MapIsStrictlyIncreasing | src/files/MidiBaker.js:196-251 | the map increases strictly in tick and in time, so both searches are legitimate |
| TempoMap.TicksToSecondsIsElapsed | src/files/MidiBaker.js:280-283 | ticks to seconds is the sum of the lengths of all earlier ticks at the tempos in force |
| TempoMap.SecondsUnderTempo | src/files/MidiBaker.js:280-283 | between two ticks ruled by one tempo event (the last of the latest tick not after the first, none in between) the time is the ticks times its microseconds per beat, over the resolution times a million |
| TempoMap.SecondsBeforeTempos | src/files/MidiBaker.js:217-228 | up to the first tempo event a beat takes 500000 microseconds |
| TempoMap.OneBeatIsHalfASecond | src/files/MidiBaker.js:280-283 | one beat of 480 ticks without tempo events: 0.5 s |
| TempoMap.TicksToSecondsGrows | src/files/MidiBaker.js:280-283 | later ticks have strictly later times |
| TempoMap.SecondsToTicksInverts | src/files/MidiBaker.js:286-290 | seconds to ticks inverts ticks to seconds exactly, and any moment lies after tick n if and only if its exact tick exceeds n |
| Metadata.CollectTempos | src/files/MidiFileParser.js:69-88 | collects all tempo events of all tracks in file order, and the first as displayed tempo |
| Metadata.CountTicks | src/files/MidiFileParser.js:100-107 | the length of a file is that of its longest track |
| Metadata.LongestTrack | src/files/MidiFileParser.js:100-107 | that length is reached by some track, or is 0, and no track is longer |
| Metadata.TempoOfMinute | src/files/MidiFileParser.js:75-77 | the displayed beats per minute times the first microseconds per beat are 60000000; 120 without a finite one |
| Metadata.DedupKeepsTempo | src/files/MidiFileParser.js:91-98 | dropping repeated events changes no tempo in force |
| Metadata.WalkDuration | src/files/MidiFileParser.js:116-128 | the walk yields the reference time of the last tick |
| Metadata.ExtractMetadata | src/files/MidiFileParser.js:46-135 | the stored duration is the reference time of the last tick whatever order, repetition or collision the tempo events come in; without tempo events it is half a second a beat, and under one tempo from the start its time, with 480 ticks a beat where the header gives none |
| Metadata.DurationMatchesBaker | src/files/MidiFileParser.js:109-128 | it equals the baker's time of the last tick if and only if no zero tempo is in force before it |
| Metadata.PositiveTemposSuffice | src/files/MidiFileParser.js:109-128 | in particular for every file whose tempos are all positive |
| Metadata.ZeroTempoDisagrees | src/files/MidiFileParser.js:109-128 | and not for one beat at tempo zero |
| HandPlacement.CcStaysOnItsSide | src/files/MidiBaker.js:311-315 | a 'post' controller timed after tick n gets a tick of at least n + 1, any other timed at or before it gets at most n |
| HandPlacement.CcTickIsNearest | src/files/MidiBaker.js:311-315 | a 'post' controller gets the first tick not before its exact one, any other the nearest one, halves upwards, and none a tick below 0 |
| HandPlacement.CcTickOfTick | src/files/MidiBaker.js:311-315 | a controller timed at a tick gets that tick, whatever its placement |
| HandPlacement.MergedSides | src/files/MidiBaker.js:735-741 | the merge puts a later controller behind every note of tick n and one at or before n in front of them |
| HandPlacement.HandCcSurvivesBake | src/files/MidiBaker.js:297-315 | hence the order of hand controllers and notes in the baked file is the one their times prescribe |
| LightingRules.ReactKeepsDevice | src/lighting/LightingManager.js:636-741 | one event at a note-on rule: counters stay positive, no counter exceeds what sounds, velocity floors included, and LEDs of the rule are lit only while the device holds a note |
| LightingRules.ReactAllKeepsDevice | src/lighting/LightingManager.js:511-519 | the same for all note-on rules of a device in turn, which share its counters |
| LightingRules.SoundsAtMostEach | src/lighting/LightingManager.js:636-665 | the count of what sounds at a device is at most the sum of what sounds at each of its rules, so it is 0 when all their notes are released |
| LightingRules.ReleaseKeepsDevice | src/lighting/LightingManager.js:980-997 | a release takes one from its own note's counter, never below zero, and from no other |
| LightingRules.ForgettingAttack | src/lighting/LightingManager.js:345-355 | losing an event that is no release can only lower the sounding counts |
| LightingFilters.OutsideIsIgnored | src/lighting/LightingManager.js:563-644 | filter by filter (trigger, channels, velocity, notes, controllers, controller value): an event outside it, or of another instrument, passes the rule by; the end of a held note is exempt from trigger and velocity |
| LightingFilters.InsideLights | src/lighting/LightingManager.js:563-741 | an event of the rule's instrument inside all filters that ends no note lights all LEDs of the rule, and counts its note if it is an attack |
| LightingFilters.InsideReleases | src/lighting/LightingManager.js:644-725 | the end of a held note, inside the filters that say where the rule applies, takes one from its counter; with the last one of the device the rule's LEDs go off |
| LightingDispatch.Victim | src/lighting/LightingManager.js:351-375 | the event given up on overflow is the oldest that is no release; it is a release only when all pending ones are |
| LightingDispatch.LightingManager.FindVictim | src/lighting/LightingManager.js:353-368 | the scan from the cursor finds that event |
| LightingDispatch.LightingManager.DropOldestEvent | src/lighting/LightingManager.js:351-375 | drops it from the backing array, counts it, and leaves the rest in order |
| LightingDispatch.LightingManager.CompactQueue | src/lighting/LightingManager.js:383-391 | compaction changes no pending event and brings the cursor below the limit |
| LightingDispatch.LightingManager.PushLightingEvent | src/lighting/LightingManager.js:328-343 | appends behind at most limit - 1 others, arms a drain, and keeps the array shorter than twice the limit |
| LightingDispatch.LightingManager.ApplyRoutedEvent | src/lighting/LightingManager.js:511-519 | every rule sees the event once, in rule order |
| LightingDispatch.LightingManager.RunWithinBudget | src/lighting/LightingManager.js:404-433 | processes a prefix of the pending events, at least one, and stops once the budget is spent |
| LightingDispatch.LightingManager.DrainQueue | src/lighting/LightingManager.js:399-439 | a drain, re-armed exactly when something is left |
| LightingDispatch.LightingManager.DiscardPendingEvents | src/lighting/LightingManager.js:463-473 | empties the queue, disarms the drain and counts what was lost |
| LightingDispatch.LightingManager.BlackoutAll | src/lighting/LightingManager.js:1355-1369 | darkens every device, discards what is queued, keeps the held-note counters |
| LightingDispatch.LightingManager.AllLightsOff | src/lighting/LightingManager.js:1371-1389 | clears those as well |
| LightingDispatch.ApplyEventPerDevice | src/lighting/LightingManager.js:495-519 | a device's state depends on its own rules alone, applied in their order |
| LightingFilters.EventLights | src/lighting/LightingManager.js:495-519 | one event and all rules: afterwards a device has on what it had and what the rules inside all filters light, and its note counts once for each of them, unless the event ends a note |
| LightingFilters.EventIgnored | src/lighting/LightingManager.js:495-519 | an event outside the place of every rule of a device leaves that device as it is |
| LightingRuns.RunIsAccounted | src/lighting/LightingManager.js:328-473 | in every run: pushed = processed + dropped + discarded + pending, depth within the limit, and pending work has a drain armed |
| LightingRuns.DrainMakesProgress | src/lighting/LightingManager.js:399-439 | every drain of a non-empty queue, whatever its budget, processes something |
| LightingRuns.RunsInOrder | src/lighting/LightingManager.js:328-473 | what a run processes, and then what it leaves pending, is a subsequence of what was pending and pushed, in order |
| LightingRuns.NothingSurvivesBlackout | src/lighting/LightingManager.js:1355-1389 | nothing queued before a blackout or all-off is processed after it |
| LightingRuns.DarkUntilPushed | src/lighting/LightingManager.js:1355-1389 | after a blackout or all-off every device is dark, and stays so through any drains until something new is pushed |
| LightingSafety.FreshIsSafe | src/lighting/LightingManager.js:60-66 | the manager is safe, and dark, at the start: the results below hold for every run from there |
| LightingSafety.BlackoutExactly | src/lighting/LightingManager.js:1355-1369 | a blackout leaves a safe world if and only if no counter is above what sounds |
| LightingSafety.OverflowExactly | src/lighting/LightingManager.js:345-375 | an overflow that drops a release is safe if and only if the other pending releases and what sounds cover the counters |
| LightingSafety.StepSafeExactly | src/lighting/LightingManager.js:328-473 | a step from a world that is safe for a device, its counters and pending events never above what sounds, leads to one if and only if it is harmless |
| LightingSafety.RunSafeExactly | src/lighting/LightingManager.js:328-473 | a run from any safe world stays safe if and only if each step is harmless, which can be told before the step |
| LightingSafety.NoLightStaysOn | src/lighting/LightingManager.js:636-665 | after a harmless run from any safe world, drained: a device counts at most the sounding notes; when all are released it holds none, and is dark if its rules share a range |
| LightingSafety.LitMeansHeld | src/lighting/LightingManager.js:980-997 | in every run, whatever it drops or blacks out, a lit device whose rules share a range holds a note |
| LightingStranded.GoesDarkExactly | src/lighting/LightingManager.js:636-665 | a drained device whose rules light the same LEDs and share no event, such as one with a single rule: every harmless continuation that releases all its notes leaves it dark, if and only if what sounds covers its counters (or it is dark and no attack can match) |
| LightingStranded.CoveredGoesDark | src/lighting/LightingManager.js:636-665 | for any rules with one range, covered counters suffice |
| LightingStranded.BlackoutCanStrandALight | src/lighting/LightingManager.js:1355-1369 | for any rule that answers to some attack and shares no event, and every limit: a press and a release with a blackout between release and drain leave a note held, so that the device does not go dark |
| LightingStranded.OverflowCanStrandALight | src/lighting/LightingManager.js:345-375 | so do a press, its release, and as many other releases as the limit before the next drain |
| LightingRanges.RangesExactly | src/lighting/LightingManager.js:980-997 | several note-on rules on a device, each with a key of its own: every harmless run that ends drained and released leaves it dark, if and only if all light the same LEDs |
| LightingRanges.TwoKeysStayLit | src/lighting/LightingManager.js:980-997 | two such keys pressed and then released in turn leave on what the first rule lights outside the second one's range |
| LightingRanges.SplitKeyboardStaysLit | src/lighting/LightingManager.js:980-997 | a keyboard split over two LEDs: press 40, press 80, release 40, release 80 leaves the first LED on |
| LightingRanges.LayersUseUpAHold | src/lighting/LightingManager.js:636-665 | rules that overlap: with two velocity layers of one key a press takes one hold and its release gives back two, so a stranded hold is used up and the device is dark |
| FileWriteLock.Lock.AcquireKey | src/files/FileWriteLock.js:73-89 | a call of acquire takes the key's tail as predecessor and becomes the tail |
| FileWriteLock.Lock.Resume | src/files/FileWriteLock.js:138-154 | a wait ends by the predecessor's promise or by the timer |
| FileWriteLock.Lock.ReleaseTicket | src/files/FileWriteLock.js:93-100 | releasing is idempotent and queues one clean-up |
| FileWriteLock.Lock.SettleTicket | src/files/FileWriteLock.js:83-89 | a chain promise settles once its predecessor has settled and its own ticket is released |
| FileWriteLock.Lock.RunCleanup | src/files/FileWriteLock.js:100-110 | a clean-up attaches a callback to whatever tail the key has by then |
| FileWriteLock.Lock.FireCallback | src/files/FileWriteLock.js:103-110 | the callback deletes the entry only if that tail is still the tail |
| FileWriteLock.RunKeepsInv | src/files/FileWriteLock.js:73-113 | every interleaving keeps the chain invariant: predecessors are the nearest earlier tickets, tails the last ones, settled means all earlier ones released |
| FileWriteLock.EntryAfterAllEarlierReleases | src/files/FileWriteLock.js:73-113 | in every interleaving a waiter that did not time out is in only after all earlier acquires of its key have released |
| FileWriteLock.ExclusionExactly | src/files/FileWriteLock.js:73-146 | in every run, all states keep a key's holders to one at a time and in acquire order, if and only if each of its timers fires after all earlier tickets of the key are released |
| FileWriteLock.OneHolderInOrder | src/files/FileWriteLock.js:66-113 | then there is one holder of the key, and entry is first come, first served |
| FileWriteLock.DeletionIsSafe | src/files/FileWriteLock.js:98-111 | a map entry disappears only when every ticket of its key has been released |
| FileWriteLock.WaiterCanEnter | src/files/FileWriteLock.js:81-91 | no waiter is stranded: once the earlier tickets are released, promise callbacks alone let it in |
| FileWriteLock.EntryHasPendingCallback | src/files/FileWriteLock.js:98-111 | the map does not leak: an idle key still in it has a callback to come |
| FileWriteLock.EarlyTimerBreaksExclusion | src/files/FileWriteLock.js:132-146 | from any state: a timer that fires while an earlier ticket of its key holds puts two holders inside, until one of them releases |
| FileWriteLock.TimeoutBreaksExclusion | src/files/FileWriteLock.js:132-146 | such a run of four steps, from the initial state |
| LockedUpdates.LockedUpdatesAreSerial | src/files/FileWriteLock.js:123-130 | after any interleaving in which no timer of a file fires too early, that file holds its updates applied one after the other in acquire order, whatever happens to other files |
| LockedUpdates.UpdateCompletes | src/files/FileWriteLock.js:73-130 | an update of a file whose tickets are all released can be run to its end; the file is then what the update says, every other file is as it was, and all tickets are released again |
| LockedUpdates.UpdatesComplete | src/files/FileWriteLock.js:73-130 | so can any number of updates, one after the other, from the start |
| LockedUpdates.TimeoutLosesUpdate | src/files/FileWriteLock.js:132-146 | whenever a timer fires while an earlier ticket has read and not written, and both go on, the file ends as the later one alone leaves it; for all updates, that is serial if and only if the two agree there |
| PresetCodec.EncodePreset | src/files/SF2PresetCodec.js:54-101 | fills the buffer with header, metadata and all samples in order; fails exactly when the metadata outgrows its length field |
| PresetCodec.HeaderLayout | src/files/SF2PresetCodec.js:79-88 | the first bytes: GMBP, version 2, the length of the metadata with the lowest byte first, and then the metadata |
| PresetCodec.SampleLayout | src/files/SF2PresetCodec.js:90-99 | behind them sample after sample, four bytes each, the lowest first |
| PresetCodec.CollectMeta | src/files/SF2PresetCodec.js:55-77 | the metadata loop records each zone's running offset and length |
| PresetCodec.SlicesTile | src/files/SF2PresetCodec.js:56-98 | offsets are prefix sums: slices start at 0, follow each other without gap or overlap, end with the area, and hold their zone's sample |
| PresetCodec.ZonesDecode | src/files/SF2PresetCodec.js:137-168 | decoding succeeds exactly when every zone is in bounds, zone by zone; otherwise it names the first that is not |
| PresetCodec.AcceptedSlicesAreInBounds | src/files/SF2PresetCodec.js:110-170 | whatever the bytes and the metadata claim, an accepted input has every slice inside the buffer and behind the metadata |
| PresetCodec.ToInt32OfNat | src/files/SF2PresetCodec.js:138-139 | the bitwise conversion keeps whole numbers below 2^31 and turns those with bit 31 negative |
| PresetCodec.ToInt32Truncates | src/files/SF2PresetCodec.js:138-139 | what is no number becomes 0, and what lies within 32 bits loses its fraction toward zero |
| PresetCodec.ToInt32Repeats | src/files/SF2PresetCodec.js:138-139 | beyond, the conversion repeats every 2^32 |
| PresetCodec.RoundTrip | src/files/SF2PresetCodec.js:54-170 | decoding an encoded preset gives every zone back, samples bit for bit, a missing sample as an empty one |
| PresetCodec.HugeOffsetIsRefused | src/files/SF2PresetCodec.js:138-146 | a zone whose offset or length has bit 31 set makes decoding refuse the preset |
| PresetCodec.RoundTripExactly | src/files/SF2PresetCodec.js:54-170 | up to 2^32 samples the round trip holds if and only if every offset and length is below 2^31 |
| PresetCodec.SmallPresetsRoundTrip | src/files/SF2PresetCodec.js:54-170 | in particular every preset with fewer than 2^31 samples in all |
| SqlSplitter.SplitSqlStatements | src/persistence/DatabaseLifecycle.js:268-312 | the scanner ends on every input, unfinished quotes and comments included, and computes the specified split |
| SqlSplitter.SkipPastBlock | src/persistence/DatabaseLifecycle.js:281-286 | skipping a block comment lands behind its end, or beyond the text when it has none |
| SqlSplitter.TrimInSpace | src/persistence/DatabaseLifecycle.js:299-302 | trimming takes off exactly the white space around a trimmed text |
| SqlSplitter.TrimmedExactly | src/persistence/DatabaseLifecycle.js:299-302 | the code points that trimming takes off: those of ECMA-262, and no other |
| SqlSplitter.SplitKeeps | src/persistence/DatabaseLifecycle.js:268-312 | what splitting makes of any script, with white space and comments around the statements and any comment left open at the end: the statements, less a last minus where a line comment follows at once |
| SqlSplitter.SplitScript | src/persistence/DatabaseLifecycle.js:268-312 | so splitting returns the statements of a script if and only if none ends in a minus directly before a line comment |
| SqlSplitter.CommentTakesMinus | src/persistence/DatabaseLifecycle.js:277-281 | a script whose statement does |
| SqlSplitter.SplitJoin | src/persistence/DatabaseLifecycle.js:268-312 | splitting undoes joining with semicolons |
| SqlSplitter.SplitIsOk | src/persistence/DatabaseLifecycle.js:268-312 | for every input the statements are trimmed, non-empty and free of semicolons outside quotes, and all but the last have their quotes closed |
| SqlSplitter.SplitTwice | src/persistence/DatabaseLifecycle.js:268-312 | splitting the joined result again changes nothing, if and only if the script has no block comment outside quotes between two kept characters that open a comment together |
| SqlSplitter.DroppingFormsComment | src/persistence/DatabaseLifecycle.js:277-286 | a script that has one: the comment stands between two minus signs |
| Sf2Structure.ValidateSf2Structure | src/files/SF2Converter.js:44-80 | accepts exactly the well-structured files, and the reason it gives for refusing another is true of that file |
| Sf2Structure.CheckList | src/files/SF2Converter.js:64-77 | the inner loop does so for the sub-chunks of one LIST |
| Sf2Structure.ChunksTile | src/files/SF2Converter.js:58-79 | walked chunks follow each other, padding aside, from the start to less than one header before the end |
| Sf2Structure.AcceptedIsNested | src/files/SF2Converter.js:58-79 | in an accepted file chunks and sub-chunks lie inside their containers, in order and disjoint |
| Sf2Structure.DeclaredSizeIsBounded | src/files/SF2Converter.js:30-43 | all that an accepted file declares, headers and type words of both levels included, is no larger than the file |
| Sf2Structure.GuardsNeedLargeFiles | src/files/SF2Converter.js:59-69 | the two counters refuse only files with eight bytes for every chunk counted |
| Sf2Structure.AcceptedCounts | src/files/SF2Converter.js:58-70 | their limits are 100000 chunks and 2000000 sub-chunks of one LIST |
| Sf2Structure.BareSoundfontIsAccepted | src/files/SF2Converter.js:44-80 | a RIFF sfbk file with the lists INFO, sdta and pdta, byte for byte, is accepted |
| Sf2Structure.OverlongListIsRefused | src/files/SF2Converter.js:64-77 | one whose list holds a sub-chunk a byte too long is not |
| WsOutputQueue.Queue.DropOneUnderPressure | src/api/WsOutputQueue.js:164-174 | takes out one entry: the one the policy names |
| WsOutputQueue.DropOnePolicy | src/api/WsOutputQueue.js:164-174 | a critical event goes only when no informational one is queued; of either kind the oldest goes |
| WsOutputQueue.Queue.EnqueueEvent | src/api/WsOutputQueue.js:146-155 | makes room, appends, arms a flush; a closed queue ignores it |
| WsOutputQueue.Queue.BroadcastEvent | src/api/WsOutputQueue.js:211-218 | routes by kind and severity |
| WsOutputQueue.Queue.EnqueueLatestEvent | src/api/WsOutputQueue.js:193-202 | replaces the kind's payload in place, or adds a slot at the end |
| WsOutputQueue.Queue.FlushOnce | src/api/WsOutputQueue.js:352-377 | sends the slots, then the queue, and leaves both empty |
| WsOutputQueue.Queue.CloseQueue | src/api/WsOutputQueue.js:236-240 | closing empties the queue and the slots |
| WsOutputQueue.RoomKeepsNewest | src/api/WsOutputQueue.js:146-174 | making room keeps the newest critical events that fit and the newest informational ones beside all critical ones |
| WsOutputQueue.RunKeepsInv | src/api/WsOutputQueue.js:146-250 | in every run, with any lag: depth at most the greater of the limit and 50, one slot a kind, a flush armed whenever something waits, nothing kept once closed |
| WsOutputQueue.CloseIsFinal | src/api/WsOutputQueue.js:236-240 | once closed, whatever is broadcast or flushed, nothing is kept and nothing is sent |
| WsOutputQueue.AfterBroadcasts | src/api/WsOutputQueue.js:193-218 | after any broadcasts each coalescable kind holds its last payload, in order of first broadcast, and the queue is a subsequence of the discrete events |
| WsOutputQueue.CriticalsSurvive | src/api/WsOutputQueue.js:146-174 | no critical event is lost if and only if each discrete event finds fewer critical ones before it than its depth |
| WsOutputQueue.InformationalEvictsCritical | src/api/WsOutputQueue.js:146-174 | with depth 1, a lighting event pushes a queued MIDI event out |
| WsOutputQueue.FillsToDepth | src/api/WsOutputQueue.js:146-187 | discrete events that all arrive at one effective depth fill the queue to exactly that depth |
| WsOutputQueue.LagOutgrowsLimit | src/api/WsOutputQueue.js:182-187 | under lag fifty of them are all kept, which is more than the limit if and only if the limit is below 50 |
| WsOutputQueue.NewestByLag | src/api/WsOutputQueue.js:146-187 | of discrete events of one severity the newest wait, with their payloads: up to the limit, under lag up to 50 or half the limit, whichever is more |
| WsOutputQueue.InformationalGivesWay | src/api/WsOutputQueue.js:60-174 | upload progress, LED states and lighting effects give way to an older event of any other kind |
| WsOutputQueue.RunOfBroadcasts | src/api/WsOutputQueue.js:100-140 | a run starts open and empty |
| WsOutputQueue.ClosedByCloseOnly | src/api/WsOutputQueue.js:236-240 | and is closed if and only if it closes the queue |
| WsOutputQueue.FlushSends | src/api/WsOutputQueue.js:352-377 | in any run the next flush sends exactly those payloads, each kind once, and then those discrete events, message by message with their kind and payload |
| Playlist.PlaylistItems.AddPlaylistItem | src/persistence/Database.js:349-374 | inserts one row, by default behind the largest position of its playlist |
| Playlist.PlaylistItems.RemovePlaylistItem | src/persistence/Database.js:376-402 | deletes the row and closes the gap; an unknown item changes nothing |
| Playlist.PlaylistItems.ReorderPlaylistItem | src/persistence/Database.js:404-450 | shifts and sets as the two branches do; an item that is not in the playlist is reported and changes nothing |
| Playlist.RepresentsOne | src/persistence/Database.js:333-347 | rows mean at most one list, without repetitions |
| Playlist.AddAppends | src/persistence/Database.js:349-362 | an insert appends to the list; with a position of its own, the rows still mean a list if and only if that position is the next one |
| Playlist.RemoveTakesOut | src/persistence/Database.js:376-391 | a removal takes the item out of the list and moves the later ones up |
| Playlist.ReorderMoves | src/persistence/Database.js:411-439 | the shift-then-set branches take the element at the old index out and insert it at the new one |
| Playlist.ReorderExactly | src/persistence/Database.js:404-450 | the positions stay a permutation of 0 to n - 1 if and only if the new position is one of them |
| Playlist.ReorderOutsideBreaks | src/persistence/Database.js:404-450 | a single item moved to position 5 leaves rows that mean no list |
| Playlist.RunRefines | src/persistence/Database.js:349-450 | after any run of appends, removals and in-range reorders every playlist, not only the one touched, is the list the same run makes of it |
| InstanceCache.KeyInjective | src/files/SF2InstanceCache.js:66-68 | a key tells its path and its modification time, whatever colons the path has |
| InstanceCache.KeyOfFile | src/files/SF2InstanceCache.js:66-68 | the key of /sf2/a:b.sf2 at time 17.5 is the path, a colon and the time |
| InstanceCache.SF2InstanceCache.GetForPath | src/files/SF2InstanceCache.js:66-96 | the new map and the result, on a hit, on a miss and when reading or parsing fails |
| InstanceCache.SF2InstanceCache.DropPath | src/files/SF2InstanceCache.js:80-82 | the loop over a snapshot of the keys leaves the other paths' entries and an exact byte counter |
| InstanceCache.SF2InstanceCache.Invalidate | src/files/SF2InstanceCache.js:104-110 | the same loop on demand, which also takes an entry keyed by the prefix itself |
| InstanceCache.SF2InstanceCache.Clear | src/files/SF2InstanceCache.js:113-117 | empties the cache and resets both counters |
| InstanceCache.EvictTakesOldest | src/files/SF2InstanceCache.js:89-94 | eviction takes the oldest entries, no more than the budgets ask for, and never the newest |
| InstanceCache.GetKeepsInv | src/files/SF2InstanceCache.js:66-96 | a lookup keeps the byte counter equal to the entries' sum, size within capacity, bytes within budget unless one entry is left |
| InstanceCache.ReturnedIsKept | src/files/SF2InstanceCache.js:89-95 | with a capacity of at least 1 the instance just returned is in the cache, as its newest entry |
| InstanceCache.GetKeepsOrder | src/files/SF2InstanceCache.js:71-76 | entries stay in order of last use, so eviction takes the least recently used |
| InstanceCache.GetKeepsOne | src/files/SF2InstanceCache.js:78-82 | no path ever has two entries: a changed file loses its old one |
| InstanceCache.DropForgets | src/files/SF2InstanceCache.js:104-110 | invalidating a path leaves none of its entries and all that do not match it |
| InstanceCache.DropByText | src/files/SF2InstanceCache.js:104-110 | an entry goes if and only if its key is the path, a colon and more, or, on demand, the path itself |
| InstanceCache.RunIsSound | src/files/SF2InstanceCache.js:50-117 | all this in every run, and any lookup after it returns what uncached parsing would |
| FileLibrary.PathInjective | src/files/BlobStore.js:39-46 | different hashes have different paths |
| FileLibrary.PathOfHash | src/files/BlobStore.js:39-46 | the blob of hash 0a1b2c is midi/0a/0a1b2c.mid |
| FileLibrary.FileManager.WriteBlob | src/files/BlobStore.js:55-111 | an existing blob is reported and left alone, a failed write leaves nothing |
| FileLibrary.FileManager.HandleUpload | src/files/FileManager.js:91-282 | rows, blobs and outcome for every failure point |
| FileLibrary.FileManager.SaveFile | src/files/FileManager.js:353-438 | the same for saving, with its clean-up |
| FileLibrary.FileManager.BakeAndSave | src/files/FileManager.js:449-522 | the same for baking, without |
| FileLibrary.FileManager.ReplaceFileBytes | src/files/FileManager.js:540-610 | the same for replacing, without |
| FileLibrary.FileManager.CreateDerivedFile | src/files/FileManager.js:625-695 | the same for deriving, which cleans up after a failed transaction only |
| FileLibrary.FileManager.DeleteFile | src/files/FileManager.js:330-351 | removes the row, then tries the blob |
| FileLibrary.FileManager.GcOrphanBlobs | src/persistence/BackupScheduler.js:108-139 | collects what no row refers to, and nothing when there is no row |
| FileLibrary.CollectLeavesReferenced | src/files/BlobStore.js:204-226 | a collection that can unlink leaves exactly the referenced blobs, unless there are blobs but no row |
| FileLibrary.StepKeepsIntegrity | src/files/FileManager.js:91-695 | every operation, failing anywhere, keeps hashes unique and each row's blob on disk under the path and with the content of its hash |
| FileLibrary.RunKeepsIntegrity | src/files/FileManager.js:91-695 | so does every run, whatever the disk refuses to unlink |
| FileLibrary.UploadLeavesNoOrphan | src/files/FileManager.js:129-231 | an upload, failed or not, leaves no new orphan |
| FileLibrary.UploadRefusedExactly | src/files/FileManager.js:91-282 | an upload is refused if and only if it is above 10 MiB, its new blob cannot be written, or a later step fails while no row has its hash |
| FileLibrary.DeriveRefusedExactly | src/files/FileManager.js:625-695 | the same for deriving, which checks neither complexity nor validity |
| FileLibrary.RewriteRefusedExactly | src/files/FileManager.js:353-610 | saving and replacing are refused above 10 MiB, and these and baking when the new blob cannot be written, another row has the hash, or a later step fails |
| FileLibrary.MissingRowIsRefused | src/files/FileManager.js:330-610 | rewriting or deleting an unknown file is refused and changes nothing |
| FileLibrary.RewriteLeavesOrphan | src/files/FileManager.js:353-610 | a rewrite leaves one exactly when a new blob fails late and nothing cleans up; saving never does |
| FileLibrary.DeriveLeavesOrphan | src/files/FileManager.js:625-685 | deriving leaves one exactly when parsing or analysing a new blob fails |
| FileLibrary.StepLeavesOrphan | src/files/FileManager.js:91-695 | taken together: which failures leak, and that nothing else does |
| FileLibrary.FailedBakeLeavesOrphan | src/files/FileManager.js:449-522 | an uploaded file baked to other bytes, whose transaction then fails, leaves one orphan |
| FileLibrary.TidyRunHasNoOrphan | src/files/FileManager.js:91-695 | after any run without such a failure the disk holds exactly the referenced blobs |
| FileLibrary.UploadReadsBack | src/files/FileManager.js:91-282 | an accepted upload, new or duplicate, reads back as the uploaded bytes under the id returned |
| FileLibrary.DeriveReadsBack | src/files/FileManager.js:625-695 | so does a derived file |
| FileLibrary.RewriteReadsBack | src/files/FileManager.js:353-610 | a successful rewrite reads back as the new bytes |
| FileLibrary.RefusedKeepsContent | src/files/FileManager.js:353-610 | a failed one leaves every row and what it reads |
| FileLibrary.OtherRowsStay | src/files/FileManager.js:91-695 | no operation changes, adds or removes a row other than its own |
| FileLibrary.DeleteForgets | src/files/FileManager.js:330-351 | a deleted file is gone, and its blob with it if the disk lets it go |

## Left out

Assumptions and narrower statements, by member:

- Bake.BakedBalance: needs non-negative delta times, which the MIDI file format guarantees; so do the other statements about order in a track and the tempo map.
- Rebake.MergeTwiceIsMergeOnce: needs at most one end-of-track event in the track, because the merge moves only the first one it finds.
- TempoMap.SecondsToTicksInverts: computes over exact reals where the program uses doubles, so rounding of times is not modelled.
- Metadata.ExtractMetadata: leaves out infinite resolutions, and tracks whose ticks would decrease; the fallback to 120 for a first tempo of zero is in.
- LightingRules.ReactKeepsDevice: takes the driver of the light to be connected. While it is not, presses and releases pass by without being counted, so a release drained then leaves its note held.
- LightingSafety.NoLightStaysOn: takes static note-on rules on the device in question, on routed instruments, switching off at once, and rules that do not change while a note is held; other devices may have any rules.
- LightingStranded.GoesDarkExactly: asks that no event concerns two rules of the device; where rules overlap, a release may use a stranded hold up (`LightingRanges.LayersUseUpAHold`).
- LightingDispatch.LightingManager.DrainQueue: the clock is the number of events the budget allows; the warning, slow-event, maximum-depth and error counters are not kept.
- FileWriteLock.ExclusionExactly: counts a waiter that has timed out as inside from then on, because the caller goes on with its work.
- PresetCodec.RoundTripExactly: the only-if half is for up to 2^32 samples in all; beyond, a wrapped offset may by chance point at equal samples.
- PresetCodec.HugeOffsetIsRefused: is about the codec alone. The one producer, src/files/SF2Converter.js:28-232, caps the samples of a soundfont far below 2^31, so such an offset does not reach the encoder in the program.
- WsOutputQueue.Queue.EnqueueEvent: asks for an effective depth above 0, because with 0 the program's loop does not end.
- Playlist.RunRefines: covers appends without a position and reorders inside the list; the others are shown to break the numbering.
- InstanceCache.RunIsSound: assumes that content, and whether it can be read, is a function of path and modification time, and that a modification time prints without a colon.
- FileLibrary.UploadReadsBack: takes the hash to tell all contents apart; the integrity results do not need that.
- FileLibrary.RunKeepsIntegrity: takes one operation at a time with atomic transactions; overlapping operations are not modelled.

Not modelled:

- The generators of baked events: tablature, hand planners and routing lookups are inputs of the bake, and the operator's disabled notes are a set of ticks and notes per channel.
- MIDI file bytes: reading and writing them is left to the external library, so tracks are event lists; event fields that the baker only copies are dropped.
- The validator's other warnings and statistics, and the instrument, text and channel data extracted at upload.
- Sorting itself: the engine's algorithm is replaced by an insertion sort, which the uniqueness result makes equivalent.
- Lighting: wildcard rules and their de-duplication, fades, pulses, effects, per-note LEDs, colours, brightness, the hold option and the stale-note sweep.
- Lock: the conversion of keys to strings, the length of the timeout and the order of microtasks, which the interleaving leaves open.
- Preset codec: typed-array views and allocation limits; JSON is a pair of parameters assumed to undo each other on the preset at hand.
- Soundfont: the parser behind the structural check, and the conversion of presets.
- Output queue: encoding, per-client backpressure, statistics, and events enqueued from inside a flush.
- Playlists: titles, durations and the time stamp of the last change; clearing a playlist.
- File library: metadata columns, events and notifications, temporary files of an interrupted write, renaming and moving, and retries of a transaction.
- Cache: a file that changes between the reading of its time stamp and the reading of its bytes.
