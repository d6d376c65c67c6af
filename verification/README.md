# SplitForge, modelled and proved

SplitForge times races. A reader at each checkpoint sends chip reads, which are journalled and
never changed. Everything else is a conclusion drawn from the journal: bursts of reads become
crossings, crossings and operators' entries become timing events with lap numbers, timing events
and status declarations become a placed results sheet, and sheets are published as revisions that
can be compared. Beside that pipeline an edge service drains the reader into the journal and
watches for a reader or a clock that misbehaves.

This project models those parts in Dafny and proves what they promise of every journal, every
roster and every run.

| module | models |
|---|---|
| `Ordering`, `Text`, `Domain`, `PolicyLaws` | sorting by key, numbers as text, the shared records, what a configuration entry changes |
| `Registry`, `RegistryLaws` | chip assignment windows |
| `Bursts`, `Selection`, `MinimumLap`, `Crediting`, `Laps`, `Derive` | the derivation engine, loop by loop |
| `Evidence`, `Provenance`, `Reasons`, `CreditedReads`, `OrderBlind`, `Gun`, `DerivedLaws`, `EventOrder` | what the engine promises of a whole derivation |
| `Results`, `Placement`, `Scoring`, `LineLaws`, `ResultLaws`, `MeasureLaws`, `SheetLaws` | scoring and its laws |
| `EndToEnd` | from a journal to the sheet published from it |
| `Statuses`, `Revisions`, `RevisionLaws`, `ChangeLaws`, `Publication` | fingerprints, differences, the store of revisions |
| `Naming`, `Export` | names identifiers are hashed from; durations as text |
| `ReadPath`, `Watchdog`, `WatchdogLaws`, `Clock` | the edge service |

Where the source loops and mutates, the model has a method with a loop, or a class with fields, and
its `ensures` ties it to a function of its inputs; the laws are lemmas about those functions.

## Assumptions

- UUIDv5 is a function of the name it hashes, a parameter everywhere it is used. That it does not
  collide is assumed only of the names at hand, and only where a lemma says so (`NoCollisions`,
  `ToldApart`). That different records never hand it the same name is proved.
- Identifiers are numbers of 128 bits and compare as such. Distinct reads have distinct ids and
  sequence numbers, manual entries distinct ids, participants distinct ids and declarations distinct
  sequences, wherever a law needs them to.
- An instant is a count of nanoseconds within the years -9999 to 9999. Two such instants are never
  far enough apart for their milliseconds to leave 64 bits, which is proved where it is used.
- A place is 32 bits wide and saturates. Laws about the order of places are for rosters of at most
  4,294,967,295.
- Locks are healthy, and each event and each tick of the watchdog is one step, except where a lemma
  says a tick acts on guards it read earlier.

## Where the code and what is said of it differ

- `format_duration_ms` is documented as sorting as text the way it sorts as time. It does for
  durations that are not negative and need equally many digits of hours. Ten hours sorts before nine
  (`Export.TenHoursSortsBeforeNine`), and negative durations, which a chip time can be, sort backwards
  (`Export.NegativesSortBackwards`). `Export.TextOrderExactly` says of any two durations, negative ones
  included, exactly when the earlier sorts first.
- `check_for_silence` reads its guards under one lock and acts under another. A tick that read them
  before a disconnection and acts after it closes the confirmed gap
  (`Watchdog.StaleTickEndsAnOutage`), exactly when its stale guards say close
  (`Watchdog.StaleTickBreaksExactly`).
- The branch of `check_for_silence` taken when the heartbeat check is idle while its gap stands is
  never reached (`Watchdog.StandingGapIsJudged`).
- `from_assignments` compares sorted neighbours only. A window that ends before it starts, which the
  import of assignments does not refuse, makes it err both ways: it can hide a clash on either side of
  it (`RegistryLaws.EmptyWindowHidesAClash`), and it can be refused although it is never in force
  (`RegistryLaws.EmptyWindowRefusedInVain`). The builder is right exactly when leaving such windows
  out would not change its verdict (`RegistryLaws.VerdictIsRightExactly`).
- Input order does not matter to the registry for entries that, where two of one chip start
  together, have the same window or both end later (`RegistryLaws.RegistryOrderBlind`). Any other pair
  can make order decide whether it is built (`RegistryLaws.OrderCanDecide`).
- `digest` is documented as meaning, when equal, that two revisions published the same results. It
  covers bib, status, scoring time and place. Lists that agree in those are exactly the lists with one
  text in which no bib begins with the row in its place in the other (`Revisions.DigestReadsBack`), so
  publishing and the difference disagree exactly where sheets of one text have such a bib. They cannot
  on a roster none of whose bibs is another's followed by the ending of a row, which takes both separator
  characters (`Publication.PublishAgreesWithDiff`, `Publication.OneSeparatorIsTellable`). On others
  they can: two races of one roster, won by different runners, have one digest
  (`Publication.SeparatorsInABibHideASwap`). A runner who took over another's bib is invisible to it
  (`Publication.ReplacedRunnerIsNoNews`).

## Model

| member | source | states |
|---|---|---|
| `Bursts.SplitIntoBursts` | crates/splitforge-engine/src/lib.rs:310-331 | the loop over `current` and `previous` yields the split that `SplitUnique` shows is the only one |
| `Bursts.BurstsOfIsSplit` | crates/splitforge-engine/src/lib.rs:305-331 | the bursts are non-empty, put together are the group in order, have no internal gap above the window and only gaps above it between them |
| `Bursts.SplitUnique` | crates/splitforge-engine/src/lib.rs:305-331 | any split of a group with those properties is the one computed |
| `Bursts.WiderWindowMerges` | crates/splitforge-engine/src/lib.rs:305-331 | widening the window only joins neighbouring bursts |
| `Selection.FirstAbove` | crates/splitforge-engine/src/lib.rs:337-340 | the first read whose strength is known and at or above the floor, and none only if no read clears it |
| `Selection.Peak` | crates/splitforge-engine/src/lib.rs:341-349 | no read is stronger, and every earlier one is weaker |
| `Selection.CandidatesOrdered` | crates/splitforge-engine/src/lib.rs:115-136 | whatever rule selects, credited instants rise strictly from burst to burst, and once a burst is on the race side of the gun all later ones are |
| `Selection.WiderWindowSelectsFewer` | crates/splitforge-engine/src/lib.rs:310-351 | a wider window never leaves more bursts with a selectable read |
| `MinimumLap.CreditIsOptimal` | crates/splitforge-engine/src/lib.rs:137-171 | on each side of the gun the greedy credits are pairwise a minimum lap apart and no such set of candidate bursts is larger |
| `Gun.FirstRaceSideIsAccepted` | crates/splitforge-engine/src/lib.rs:140-153 | whatever warm-ups came before, the first burst of a chip at a checkpoint that is on the race side and has a selectable read is an accepted crossing |
| `MinimumLap.GunNeverLowers` | crates/splitforge-engine/src/lib.rs:140-153 | both sides of any gun together hold at least as many credits as there are with no gun |
| `MinimumLap.LastCreditedIsLast` | crates/splitforge-engine/src/lib.rs:113-115 | what the loop remembers is the latest candidate credited so far |
| `MinimumLap.NoMinimumCreditsAll` | crates/splitforge-engine/src/lib.rs:145-153 | without a minimum lap a burst is credited exactly when a read of it is selectable |
| `Crediting.CreditBurst` | crates/splitforge-engine/src/lib.rs:117-196 | one burst is refused whole below the floor, refused whole as a lap too soon, or credited once with every other read a duplicate of it; only a credit is remembered |
| `Crediting.RejectDuplicates` | crates/splitforge-engine/src/lib.rs:180-192 | every read of the burst but the credited one names the crossing and its signed distance from it |
| `Crediting.CreditLane` | crates/splitforge-engine/src/lib.rs:113-197 | the loop over `last_credited` credits exactly the bursts the declarative greedy rule does, with their sides |
| `Laps.NumberLaps` | crates/splitforge-engine/src/lib.rs:259-277 | the loop over the counters gives each event the number of race-side events of its participant and checkpoint up to it, saturated at 16 bits, or 0 |
| `Laps.LapsAreConsecutive` | crates/splitforge-engine/src/lib.rs:252-266 | race-side events of a participant at a checkpoint carry 1, 2, 3 and so on to the ceiling, chips and entries together, the first event of all included; all others carry 0 |
| `Laps.LapsNeverDrop` | crates/splitforge-engine/src/lib.rs:252-266 | of two events of one participant and checkpoint the later has the smaller lap exactly when the race side is left between them |
| `DerivedLaws.LapsOfADerivation` | crates/splitforge-engine/src/lib.rs:252-277 | in the timing events of any derivation, each participant's race-side events at each checkpoint carry 1, 2, 3 and so on in output order, chips by their burst's side and entries by their own instant, and all others 0 |
| `EventOrder.EventsComeInOrder` | crates/splitforge-engine/src/lib.rs:240-250 | the timing events of any derivation are strictly in order of time, then crossings ahead of entries, then identifier |
| `EventOrder.LapsCountWhatCameBefore` | crates/splitforge-engine/src/lib.rs:202-266 | a race-side event's lap is one more than the number of race-side events of its participant and checkpoint that are before it in that order, up to the ceiling; any other's is 0 |
| `EventOrder.ListsComeInOrder` | crates/splitforge-engine/src/lib.rs:200-279 | accepted crossings come strictly by time, then identifier; rejections strictly by the read they reject |
| `Derive.GroupJournal` | crates/splitforge-engine/src/lib.rs:73-96 | every read goes to its chip and checkpoint in journal order, or is rejected as unmapped |
| `Derive.CreditLanes` | crates/splitforge-engine/src/lib.rs:98-198 | all groups, sorted and credited in key order, give the accepted, the rejected and the sides |
| `Derive.GatherSources` | crates/splitforge-engine/src/lib.rs:207-238 | crossings of known participants and all manual entries, each with its side |
| `Derive.DeriveAll` | crates/splitforge-engine/src/lib.rs:72-286 | the imperative derivation equals `Derived`, which the laws below are about |
| `Evidence.EvidenceIsConserved` | crates/splitforge-engine/src/lib.rs:79-197 | the reads credited and the reads rejected are together the journal's reads, each exactly once |
| `Provenance.AcceptedProvenance` | crates/splitforge-engine/src/lib.rs:168-178 | a crossing rests on a journal read of its chip at its checkpoint, carries that read's authoritative time, and lists only such reads in its burst |
| `Provenance.BurstsAreDisjoint` | crates/splitforge-engine/src/lib.rs:117-178 | no read is in the bursts of two crossings |
| `CreditedReads.CreditedAsTheRuleAsks` | crates/splitforge-engine/src/lib.rs:333-351 | every accepted crossing is credited, with its instant and strength, to the read its checkpoint's rule asks for: the first it lists, the first it lists at or above the floor, or the strongest, the earliest among equals, a missing strength weakest |
| `CreditedReads.ListedInOrder` | crates/splitforge-engine/src/lib.rs:103-117 | the reads a crossing lists are in order of time, then of the journal, each within the window of the one before |
| `CreditedReads.OthersAreFar` | crates/splitforge-engine/src/lib.rs:305-331 | every other journal read of the chip at the checkpoint is more than the window from every read a crossing lists |
| `CreditedReads.SideIsTheLastReads` | crates/splitforge-engine/src/lib.rs:288-303 | a crossing is on the race side exactly when the last read it lists is at or after the gun, or there is none |
| `CreditedReads.CrossingsAreTheWearers` | crates/splitforge-engine/src/lib.rs:168-178 | a crossing belongs to somebody its chip was assigned to at its own instant, from the start of the assignment until just before its end, and to nobody only if there is none |
| `Reasons.EveryRejectionIsTrue` | crates/splitforge-engine/src/lib.rs:79-192 | every rejection is of a journal read and true of it: unmapped and from that reader; in a burst no read of which clears the floor its checkpoint's rule sets; in an uncredited burst that came exactly that long, and less than the minimum lap, after the last crossing credited before it on its lane, on the same side of the gun; or another read of the burst of the accepted crossing it names, that far from it |
| `Provenance.AcceptedIdsDistinct` | crates/splitforge-engine/src/lib.rs:168-178 | no two crossings of a derivation share an identifier |
| `OrderBlind.DerivationIsOrderBlind` | crates/splitforge-engine/src/lib.rs:67-72 | permuting the journal and the manual entries leaves the whole derivation equal |
| `Gun.GunFiltersNothing` | crates/splitforge-engine/src/lib.rs:58-65 | with no minimum lap any two guns, or none, give equal accepted and rejected lists, and events equal in order but for lap and identifier |
| `Gun.CrossingsAreAsManyAsPossible` | crates/splitforge-engine/src/lib.rs:109-197 | in a derivation, each chip at each checkpoint has on each side of the gun as many crossings as any spaced choice of its selectable bursts |
| `DerivedLaws.AcceptedAreSpaced` | crates/splitforge-engine/src/lib.rs:140-153 | in a derivation, the crossings of one chip at one checkpoint on one side of the gun are themselves at least the minimum lap apart |
| `Gun.RecordingAGunNeverLowers` | crates/splitforge-engine/src/lib.rs:140-153 | recording a gun never lowers the number of accepted crossings |
| `Gun.WiderWindowsNeverAdd` | crates/splitforge-engine/src/lib.rs:109-136 | with no minimum lap, wider windows at any checkpoints never add a crossing |
| `Gun.LapsOnOneChipNeverDrop` | crates/splitforge-engine/src/lib.rs:252-266 | in output order, laps of one chip at one checkpoint for one participant never go down |
| `Registry.FromAssignments` | crates/splitforge-domain/src/entity.rs:213-233 | a registry of every chip's sorted windows is built exactly when no sorted neighbours overlap, and otherwise the first chip in order with such a pair is named |
| `RegistryLaws.NeighboursDecide` | crates/splitforge-domain/src/entity.rs:222-231 | for one chip's sorted windows that end after they start, clear neighbours mean no two share an instant, and the reverse |
| `RegistryLaws.AcceptedMeansUnambiguous` | crates/splitforge-domain/src/entity.rs:207-233 | where every window ends after it starts, a registry is built exactly when no two entries of the input assign one chip at one instant |
| `RegistryLaws.AmbiguityIgnoresEmptyWindows` | crates/splitforge-domain/src/entity.rs:207-233 | for any input, no two entries assign one chip at one instant exactly when what is left without the empty windows would be accepted |
| `RegistryLaws.VerdictIsRightExactly` | crates/splitforge-domain/src/entity.rs:207-233 | for any input the verdict is right exactly when leaving the empty windows out would not change it |
| `RegistryLaws.ResolveIsUnique` | crates/splitforge-domain/src/entity.rs:236-241 | a registry of any input answers every question with the one assignment in force, or none, exactly when no two different assignments of the chip share an instant |
| `RegistryLaws.BuiltRegistriesAnswer` | crates/splitforge-domain/src/entity.rs:236-241 | so does every accepted one whose windows end after they start |
| `RegistryLaws.RegistryOrderBlind` | crates/splitforge-domain/src/entity.rs:213-241 | permuting the input changes neither the verdict, nor the chip named, nor any answer, where entries of a chip that start together have one window or both end later |
| `RegistryLaws.OrderCanDecide` | crates/splitforge-domain/src/entity.rs:213-233 | for any two entries that break that rule some input with both is accepted in one order and refused in another |
| `RegistryLaws.EmptyWindowHidesAClash` | crates/splitforge-domain/src/entity.rs:111-116 | a window that ends before it starts can stand between two assignments that share an instant and pass the check |
| `RegistryLaws.EmptyWindowRefusedInVain` | crates/splitforge-domain/src/entity.rs:111-116 | a window that ends before it starts can be refused although nothing shares an instant |
| `PolicyLaws.OverridesAreLocal` | crates/splitforge-domain/src/policy.rs:130-151 | a checkpoint's own policy decides there, in the fields it sets, and nowhere else |
| `PolicyLaws.MappingsAreLocal` | crates/splitforge-domain/src/entity.rs:279-297 | mapping an antenna decides its own reads and no others; mapping a reader decides those of its antennas not mapped themselves |
| `PolicyLaws.MillisecondsTruncate` | crates/splitforge-results/src/lib.rs:418-421 | whole milliseconds lose what is left over, towards zero on either side of it |
| `Naming.DerivedName` | crates/splitforge-domain/src/derived.rs:27-34 | the loop builds the kind followed by each part behind a unit separator |
| `Naming.UuidTextInjective` | crates/splitforge-domain/src/derived.rs:77-84 | the hyphenated text of an identifier determines it |
| `Naming.UuidTextSpelled` | crates/splitforge-domain/src/derived.rs:77-84 | that text is the identifier's lower-case hexadecimal digits, most significant first, in groups of 8, 4, 4, 4 and 12 |
| `Naming.AcceptedReadNameInjective` | crates/splitforge-domain/src/derived.rs:77-84 | crossings with the same name are of the same checkpoint, chip and read, whatever characters a chip's identifier holds |
| `Naming.TimingEventNameInjective` | crates/splitforge-domain/src/derived.rs:215-270 | timing events with the same name have the same participant, checkpoint, lap and evidence |
| `EventOrder.IdentifiersAreHashed` | crates/splitforge-domain/src/derived.rs:77-84 | in a derivation, crossings and events have the hash of their kind and their parts in the order the source gives them |
| `Results.CrossingsCell.Add` | crates/splitforge-results/src/lib.rs:186-207 | the fields become the earliest counted, latest warm-up and earliest chip crossing once this event is added |
| `Results.CrossingsMean` | crates/splitforge-results/src/lib.rs:172-207 | over any events in any order the fold holds the earliest crossing at or after the gun, the latest before it, and the earliest chip crossing at or after it |
| `Results.CrossingsOrderBlind` | crates/splitforge-results/src/lib.rs:186-207 | permuting the events leaves the fold equal |
| `Scoring.GatherCrossings` | crates/splitforge-results/src/lib.rs:119-125 | the map filled in the loop holds that fold for every participant and checkpoint |
| `Scoring.GatherStarted` | crates/splitforge-results/src/lib.rs:127-140 | a participant is in the set exactly when seen at the start line at any time or anywhere at or after the gun |
| `Scoring.LatestDeclarations` | crates/splitforge-results/src/lib.rs:267-282 | the map filled in the loop holds the declaration in force of everyone who has one |
| `Scoring.LatestIsNewest` | crates/splitforge-results/src/lib.rs:263-282 | the declaration in force has the highest sequence of that participant's declarations, and is missing only if they have none |
| `SheetLaws.CourseIsItsLines` | crates/splitforge-results/src/lib.rs:108-115 | a course is scored by its one finish checkpoint and its one start checkpoint, if any, which chip timing needs; otherwise it is refused for the first of these it lacks, with how many there are and their names in course order |
| `Scoring.BuildSheet` | crates/splitforge-results/src/lib.rs:142-164 | one line for each participant, in roster order, from the maps |
| `Scoring.Publish` | crates/splitforge-results/src/lib.rs:166-168 | places, then publication order |
| `Scoring.Score` | crates/splitforge-results/src/lib.rs:107-169 | the imperative scorer equals `ScoreOf`, refusals of unscorable courses included |
| `Placement.AssignPlaces` | crates/splitforge-results/src/lib.rs:428-453 | the loop over `place` and `previous_time` gives every finished entry with a time one more than the number strictly faster, and no other entry a place |
| `Placement.FasterCountsRunners` | crates/splitforge-results/src/lib.rs:423-427 | the count behind a place is the size of the set of placeable entries with a strictly smaller time |
| `Placement.PlacesFollowTimes` | crates/splitforge-results/src/lib.rs:423-427 | of two placed runners the one with the smaller place is the strictly faster, and the reverse |
| `SheetLaws.PlacesCountTheFaster` | crates/splitforge-results/src/lib.rs:423-453 | in the list any race is scored to, a finisher's place is one more than the number on it with a place and a strictly smaller time |
| `Placement.SortForPublication` | crates/splitforge-results/src/lib.rs:456-467 | the array ends in publication order, a rearrangement of what it held |
| `Placement.PublishedInOrder` | crates/splitforge-results/src/lib.rs:166-168 | the published list is a rearrangement of the placed entries, with a place exactly on the placeable, those first and in time order |
| `ResultLaws.ScoredInOrder` | crates/splitforge-results/src/lib.rs:107-169 | the list any race is scored to is as long as its roster, with a place exactly on the placeable, those first and in time order |
| `SheetLaws.SheetsReadInOrder` | crates/splitforge-results/src/lib.rs:455-477 | every published list reads by place, then finished, not started, not finished, disqualified, then numeric bibs by value and all others as text, then participant |
| `ResultLaws.PublishedIsScorable` | crates/splitforge-results/src/lib.rs:360-367 | no published line shows a negative time, a place without a finisher's time, or a place behind first at no time at all |
| `Placement.BibKeyInjective` | crates/splitforge-results/src/lib.rs:469-477 | the bib order tells any two bibs apart, numbers with leading zeros included |
| `ResultLaws.ScoringIsOrderBlind` | crates/splitforge-results/src/lib.rs:98-107 | permuting the roster, the events and the declarations leaves the published list equal entry for entry, or the refusal equal |
| `ResultLaws.DisqualifyingMovesOthersUp` | crates/splitforge-results/src/lib.rs:263-282 | a newest disqualification of a placed runner keeps their times and flags, takes their place, moves everyone strictly slower up one place and changes nobody else |
| `ResultLaws.ReinstatingRestoresPlaces` | crates/splitforge-results/src/lib.rs:263-282 | declaring them finished again with a newer sequence restores every place |
| `ResultLaws.TimesAreSane` | crates/splitforge-results/src/lib.rs:298-367 | no start or finish is before a recorded gun, a chip time never exceeds the gun time, and a time used for placing is never negative |
| `MeasureLaws.TimesAreMeasured` | crates/splitforge-results/src/lib.rs:327-367 | gun time runs from gun to finish and chip time from start to finish, each there exactly when both ends are; placing goes by gun time in a gun race, by chip time or else gun time in a chip race, and by no negative time |
| `MeasureLaws.FinishIsTheFirst` | crates/splitforge-results/src/lib.rs:312-325 | a line's finish is the runner's earliest crossing of the finish at or after the gun, the lowest identifier among equals, which is the last event the line names; there is none exactly without one |
| `MeasureLaws.StartIsTheFirst` | crates/splitforge-results/src/lib.rs:295-304 | a line's start is the runner's earliest crossing of the start at or after the gun, or else the gun on the evidence of their last before it; that is the first event the line names, and it names no others |
| `MeasureLaws.LineIsTheirs` | crates/splitforge-results/src/lib.rs:395-399 | a line carries its participant's identifier, bib and name |
| `MeasureLaws.GunRacesIgnoreTheStartLine` | crates/splitforge-results/src/lib.rs:341-346 | in a gun race, two sets of evidence that differ only at the start line give every runner the same placing time and place |
| `ResultLaws.UndeclaredStatus` | crates/splitforge-results/src/lib.rs:369-387 | with nothing declared: finished exactly when some crossing of the finish is at or after the gun; did not finish exactly when none is and they were seen anywhere at or after it or at the start line at any time; never disqualified |
| `ResultLaws.DeclaredStatus` | crates/splitforge-results/src/lib.rs:369-375 | the declaration in force decides the status, and its reason is quoted |
| `LineLaws.MissingTimeIsExplained` | crates/splitforge-results/src/lib.rs:334-394 | a finisher has no placing time exactly when a flag says there was no gun, that the time was impossible, or that the finish was only declared |
| `LineLaws.ChipFallbackIsFlagged` | crates/splitforge-results/src/lib.rs:334-358 | under chip time a finisher with no start is timed from the gun and flagged, and anyone else placed is timed by their own start |
| `LineLaws.WarmUpsAreFlagged` | crates/splitforge-results/src/lib.rs:295-324 | the before-the-gun flags are raised exactly when that line has warm-ups and nothing that counts; the start is then the gun and the finish none |
| `LineLaws.ManualUseIsFlagged` | crates/splitforge-results/src/lib.rs:209-228 | a hand-entered start or finish is flagged exactly when it is the one used, and as over a chip exactly when a chip crossing that counts was passed over for it |
| `LineLaws.FlagsComeInOrder` | crates/splitforge-results/src/lib.rs:293-394 | each flag is raised once at most, and they always come in the order the source pushes them |
| `ResultLaws.PublishedLine` | crates/splitforge-results/src/lib.rs:142-168 | every published entry is the line of someone on the roster with only its place put in |
| `EndToEnd.PublishedTimesAreEvidenced` | crates/splitforge-results/src/lib.rs:295-332 | a line's finish is the authoritative time of a credited read or an entry's claimed time there, at or after the gun, and its start is one of those or the gun |
| `EndToEnd.EveryPublishedTimeIsEvidenced` | crates/splitforge-results/src/lib.rs:107-169 | the same of every entry of a published list, with no negative placing time and no chip time above the gun time |
| `EndToEnd.FinishedMeansEvidence` | crates/splitforge-results/src/lib.rs:369-387 | an undeclared runner is finished exactly when the journal and the entries put them at the finish at or after the gun |
| `Revisions.DigestName` | crates/splitforge-domain/src/result.rs:420-437 | the loop writes the four fields of each entry with their separators, in order |
| `Revisions.RowsSpelled` | crates/splitforge-domain/src/result.rs:422-437 | a finisher's row and an absent runner's, character by character |
| `Revisions.DigestReadsBack` | crates/splitforge-domain/src/result.rs:420-439 | for any two lists: they agree in bib, status, scoring time and place, line by line, exactly when their texts are equal and no bib begins with the whole row in its place in the other list |
| `Statuses.StatusesReadBack` | crates/splitforge-domain/src/result.rs:53-72 | every status is parsed back from its stored name, in any case and with white space around it |
| `Publication.OneSeparatorIsTellable` | crates/splitforge-domain/src/result.rs:422-437 | on a roster no bib of which holds both separators, no bib is another's followed by the ending of a row |
| `Revisions.Diff` | crates/splitforge-cli/src/results.rs:526-592 | the two loops list the changed pairs in order and count the unchanged ones |
| `ChangeLaws.ChangesLeadThereAndBack` | crates/splitforge-cli/src/results.rs:529-592 | where runners keep their bibs, writing what the listed changes say each line became over the earlier sheet gives the later one's statuses, places and times under every bib, and writing what they say it was over the later sheet gives the earlier's, added and removed runners included |
| `ChangeLaws.ChangeIsFiled` | crates/splitforge-cli/src/results.rs:541-592 | a change carries the later line's bib, name and reason, a removal the earlier bib and name and no reason, and each is called what it is |
| `RevisionLaws.PairsAreHonest` | crates/splitforge-cli/src/results.rs:529-592 | what is compared is exactly each revision's own line of one participant, or its absence |
| `RevisionLaws.DiffCountsEveryoneOnce` | crates/splitforge-cli/src/results.rs:526-592 | every participant of either revision is counted exactly once, as changed or as unchanged |
| `RevisionLaws.AlteredShowsTheDifference` | crates/splitforge-cli/src/results.rs:531-564 | a change's from and to values differ exactly in the fields in which the two lines differ, formatted durations included |
| `RevisionLaws.FingerprintAgreesWithDiff` | crates/splitforge-domain/src/result.rs:412-419 | for any two revisions of one roster in publication order: the difference lists no change exactly when the texts are equal and no bib begins with the row in its place in the other |
| `Publication.ComputeDigest` | crates/splitforge-domain/src/result.rs:420-439 | the fingerprint is the simple text of the hash of the kind and the rows |
| `Publication.ResultStore.Publish` | crates/splitforge-cli/src/results.rs:335-376 | unexplained is refused, unchanged is refused unless forced, anything else is appended; every revision nobody forced differs in text from the one before it |
| `Publication.PublishAgreesWithDiff` | crates/splitforge-cli/src/results.rs:357-370 | score one roster of distinct bibs twice, whatever evidence or declarations came between: the difference lists no change exactly when the digests are equal and no bib begins with the row in its place in the other sheet; and where no bib on the roster is another's followed by an ending scoring could give, exactly when the digests are equal |
| `Publication.UnforcedRevisionsDiffer` | crates/splitforge-cli/src/results.rs:359-370 | consecutive unforced revisions of one roster always have a difference to list, whatever their bibs |
| `Publication.SeparatorsInABibHideASwap` | crates/splitforge-domain/src/result.rs:422-437 | for any bib and winning time, two races of one roster with different winners that are scored to sheets of one digest, by a bib that spells the other's row |
| `Publication.RowEndingsCollide` | crates/splitforge-domain/src/result.rs:422-437 | of lists in no particular order and with any endings: every bib that spells an ending is on a roster of distinct bibs with two lists of one text and a difference between them |
| `Publication.BibCorrectionIsNoDifference` | crates/splitforge-cli/src/results.rs:529-538 | a corrected bib is news to publishing and no change to the difference |
| `Publication.ReplacedRunnerIsNoNews` | crates/splitforge-domain/src/result.rs:420-439 | another runner under the same bib is a change to the difference and no news to publishing |
| `Export.FormatIsReadable` | crates/splitforge-export/src/lib.rs:228-236 | a parser recovers every duration from its text, negative ones included |
| `Export.FormatIsInjective` | crates/splitforge-export/src/lib.rs:228-236 | equal texts are of equal durations |
| `Export.TextOrderIsTimeOrder` | crates/splitforge-export/src/lib.rs:222-226 | with equally many digits of hours, or on two sides of zero, text order is time order, but reversed for two negative durations |
| `Export.TextOrderExactly` | crates/splitforge-export/src/lib.rs:222-236 | for any two durations, negative ones included, exactly when the earlier sorts first as text |
| `Export.TenHoursSortsBeforeNine` | crates/splitforge-export/src/lib.rs:222-226 | two durations whose text order is the reverse of their time order |
| `Export.NegativesSortBackwards` | crates/splitforge-export/src/lib.rs:228-236 | two negative durations with equally many digits of hours whose text order is the reverse |
| `ReadPath.Reader.Store` | apps/splitforge-edge/src/main.rs:790-848 | for every finite run of the journal's answers: a read it can never hold is set aside at once; any other is retried until an append succeeds, adding one row, with the fault standing only meanwhile and each wait the next of the backoff, or is still being retried when the answers end |
| `ReadPath.Reader.TakeRead` | apps/splitforge-edge/src/main.rs:709-742 | one read is counted as received before the write and as stored or set aside only after it |
| `ReadPath.Reader.ReadIntoJournal` | apps/splitforge-edge/src/main.rs:662-748 | whatever appends fail, the rows are the storable reads so far in arrival order, the history from the start to now moves by one change at a time with the books balanced and at most one read in flight at each, and enough successes drain the channel with no fault left |
| `ReadPath.BackoffDoubles` | apps/splitforge-edge/src/main.rs:750-763 | waits double from a tenth of a second and stay at five seconds from the seventh on |
| `ReadPath.EveryReadGoesSomewhere` | apps/splitforge-edge/src/main.rs:736-741 | the stored and the set-aside are together the reads that came |
| `Watchdog.Service.RecordConnection` | apps/splitforge-edge/src/main.rs:872-956 | a loss opens a confirmed gap, a connection closes whatever is open and restarts the silence clock, and both disarm the heartbeat |
| `Watchdog.Service.CheckForSilence` | apps/splitforge-edge/src/main.rs:987-1154 | one tick equals the model's step, branch by branch, written or not |
| `Watchdog.EdgesAlternate` | crates/splitforge-storage/src/journal.rs:634-718 | over any run in which the halves of ticks, connections and reads interleave freely, each tick on guards as stale as you like, opened and closed rows alternate and none is taken back |
| `Watchdog.TickIsItsHalves` | apps/splitforge-edge/src/main.rs:987-1154 | a tick is the work it does under each lock in turn, whatever guards it read |
| `Watchdog.StepIsItsHalves` | apps/splitforge-edge/src/main.rs:872-956 | and so is every step, connections included |
| `Watchdog.GuardsHold` | apps/splitforge-edge/src/main.rs:872-1154 | a step keeps the guards (a lost transport has a gap open; a heartbeat gap is open with the transport up and the reader heard on this connection) exactly when it writes the opening row it owes; what the process believes is kept by every step, written or not |
| `Watchdog.GuardsHoldThroughout` | apps/splitforge-edge/src/main.rs:872-1154 | the guards hold in every state of a run exactly when every step of it writes the opening row it owes |
| `Watchdog.BeliefsHold` | apps/splitforge-edge/src/main.rs:872-1154 | in every state of every run, whatever fails to be written, a heartbeat gap stands only with the transport up and the reader heard on this connection |
| `Watchdog.OnlyConnectedEndsAnOutage` | apps/splitforge-edge/src/main.rs:1003-1015 | while the transport is down no read, sign of life, tick or repeated loss touches the rows, and a connection closes the gap exactly when its row is written |
| `Watchdog.TickDecides` | apps/splitforge-edge/src/main.rs:1029-1154 | with a race running and the transport up, a tick leaves the heartbeat gap standing exactly when the reader has been quiet that long; and, whichever rows are written, whether a gap is open after it: with the silence row written and no heartbeat gap standing, exactly when silence has reached its threshold |
| `WatchdogLaws.TickDoesBoth` | apps/splitforge-edge/src/main.rs:1029-1154 | every tick that does not stand down is the heartbeat check and then the silence check, in instants: which row each writes, when it is dated to, and that outside a race, or while the reader is quiet altogether, the second does nothing |
| `WatchdogLaws.StandingDownDoesNothing` | apps/splitforge-edge/src/main.rs:1003-1038 | with the transport lost, no reader watched or the threshold unread, a tick does nothing |
| `WatchdogLaws.NoRaceNoSilence` | crates/splitforge-domain/src/gap.rs:158-171 | with no race running, the silence check off or either unread, a tick writes only what the heartbeat check does, and changes nothing where that is off and no heartbeat gap stands |
| `WatchdogLaws.NoRaceNoRows` | crates/splitforge-domain/src/gap.rs:153-171 | while no race runs and the heartbeat is off, no number of ticks, reads and signs of life adds a row |
| `WatchdogLaws.ConnectionsWrite` | apps/splitforge-edge/src/main.rs:872-956 | a loss opens a confirmed gap and a connection closes what is open, both dated now; both disarm the heartbeat, and only a connection restarts the silence |
| `WatchdogLaws.HearingArmsTheHeartbeat` | apps/splitforge-edge/src/main.rs:683-721 | after a read or any sign of life, a tick finds the reader quiet exactly when the heartbeat is on and that was its threshold ago |
| `WatchdogLaws.ConnectingDisarmsTheHeartbeat` | apps/splitforge-edge/src/main.rs:895-899 | after a connection no tick finds the reader quiet before it is heard |
| `WatchdogLaws.SilenceRunsFromTheLastRead` | apps/splitforge-edge/src/main.rs:683-721 | in a race with the heartbeat off, a tick leaves a gap open exactly when the last read or connection, and no other sign of life, was the silence threshold ago |
| `Watchdog.StandingGapIsJudged` | crates/splitforge-domain/src/gap.rs:211-231 | while its gap stands the heartbeat check is never idle |
| `Watchdog.StaleTickEndsAnOutage` | apps/splitforge-edge/src/main.rs:987-1025 | a tick that read its guards before a loss can close the confirmed gap after it |
| `Watchdog.StaleTickBreaksExactly` | apps/splitforge-edge/src/main.rs:987-1154 | such a tick leaves the gap open exactly when its stale guards do not lead it to close |
| `Watchdog.SilenceSoFar` | crates/splitforge-domain/src/gap.rs:158-171 | through any run of ticks and signs of life, no row before the threshold, and exactly one after it |
| `Watchdog.SilenceIsNoticedInTime` | apps/splitforge-edge/src/main.rs:1094-1131 | a silence has its gap opened no sooner than the threshold and before the threshold and one tick interval have passed, recorded as starting when the silence did, to the millisecond |
| `Clock.WatchTheClock` | apps/splitforge-edge/src/main.rs:568-599 | the loop that rebinds its baseline records the step of each interval that has one |
| `Clock.IntervalBalances` | crates/splitforge-domain/src/clock.rs:75-95 | over one interval the drift is the recorded step to within two milliseconds, or below the threshold and two milliseconds if none is recorded |
| `Clock.StepsAccountForTheClock` | apps/splitforge-edge/src/main.rs:568-599 | over any run the total drift is the sum of the recorded steps, to within the threshold for each unreported interval and two milliseconds for each interval |
| `Clock.LargeJumpsAreReported` | crates/splitforge-domain/src/clock.rs:75-95 | a step is reported exactly when the clocks differ by more than the threshold, in its own direction, saturation included |
| `Clock.StepsSayWhatWasSeen` | crates/splitforge-domain/src/clock.rs:75-95 | a step names the two readings, earlier first, the elapsed time, and exactly by how many milliseconds the wall clock outran it |
| `Clock.RunningBackIsStandingStill` | apps/splitforge-edge/src/main.rs:575-579 | a monotonic clock that seems to run back counts as not having moved |

## Left out

- SQLite, migrations, the sidecar file and its recovery: storage. The journal is what its callers rely on: a failed append adds no row, opening an open gap adds none, closing a closed one adds none.
- The API, the socket, command parsing, CSV and JSON rendering, the diagnostic bundle: presentation.
- Serial and ThingMagic drivers, the LLRP crate, chrony parsing, the simulator: inputs to what is modelled.
- `flag_clock`, timestamp trust, `spreadsheet_safe`, status counts, journal summaries: easy members.
- `gun_time` and the start and stop sessions behind it: the gun is a parameter.
- `AntennaMap` as an object: its insertions are functions from map to map.
- Poisoned locks, process exit, health reporting, and an audit row that fails to be written, which the source only logs.
- Hash strength: UUIDv5 is a parameter.
- The words of refusals, and the test that a publication reason is not blank, which is a truth value.
- The other fields of a revision (number, author, time, policy): a revision here is its entries.
- In-place sorting: `slice::sort_by_key` is a functional stable sort, proved to sort and to permute; the arrays placed and published are updated in place.
- `BTreeMap` iteration order: a map, with its sorted keys beside it.
- One class for all of `ReaderStatus`: its counters are `ReadPath.Reader` and its signs of life `Watchdog.Service`; reported faults and transmit power are dropped.
- ReadPath.Reader.Store: retries for ever in the source; here the journal's answers are a finite sequence, and running out of it is an earlier moment of the same run.
- Publication.RowEndingsCollide: its lists need not be sheets scoring could give. Which rosters with a bib that continues another's row have two scored sheets of one text depends on the whole roster, its order included, and is not characterised; the condition on two given sheets is exact.
